/** The backend's credential rules (Backend/src/controllers/authController.js):
    the e-mail and password validators and the decisions `register` and `login`
    take against the users table. Password hashing (bcrypt) and token signing
    (JWT) are foreign: the hash is handed to `Register`, the comparison is a
    function parameter of `Login`, and a token is represented by its payload. */
module Auth {
  import opened Wrappers
  import opened Text
  import opened EmailPattern

  const MinPasswordLength := 8
  const MaxPasswordLength := 128
  const MaxEmailLength := 255

  const MsgPasswordRequired := "Password is required"
  const MsgPasswordTooShort := "Password must be at least 8 characters long"
  const MsgNoUppercase := "Password must contain at least one uppercase letter"
  const MsgNoLowercase := "Password must contain at least one lowercase letter"
  const MsgNoDigit := "Password must contain at least one number"
  const MsgNoSpecial := "Password must contain at least one special character"
  const MsgPasswordTooLong := "Password must be less than 128 characters"
  const MsgCredentialsRequired := "Email and password are required"
  const MsgInvalidEmail := "Please enter a valid email address"
  const MsgEmailTooLong := "Email address is too long"
  const MsgUserExists := "User already exists"
  const MsgInvalidCredentials := "Invalid credentials"

  // The character classes of the password rules: /[A-Z]/, /[a-z]/, /[0-9]/ and
  // /[!@#$%^&*(),.?":{}|<>]/.

  predicate IsUpperAscii(c: char) { 'A' <= c <= 'Z' }
  predicate IsLowerAscii(c: char) { 'a' <= c <= 'z' }
  predicate IsDigitAscii(c: char) { '0' <= c <= '9' }
  predicate IsSpecial(c: char) { c in "!@#$%^&*(),.?\":{}|<>" }

  predicate HasUpper(p: string) { exists i :: 0 <= i < |p| && IsUpperAscii(p[i]) }
  predicate HasLower(p: string) { exists i :: 0 <= i < |p| && IsLowerAscii(p[i]) }
  predicate HasDigit(p: string) { exists i :: 0 <= i < |p| && IsDigitAscii(p[i]) }
  predicate HasSpecial(p: string) { exists i :: 0 <= i < |p| && IsSpecial(p[i]) }

  /** The four character classes every password needs. */
  predicate HasAllClasses(p: string)
  {
    HasUpper(p) && HasLower(p) && HasDigit(p) && HasSpecial(p)
  }

  /** What the backend accepts as a password. */
  predicate IsStrongPassword(p: string)
  {
    MinPasswordLength <= |p| <= MaxPasswordLength && HasAllClasses(p)
  }

  /** How the backend stores an address: trimmed and lower-cased, so no whitespace
      at either end and no upper-case letter. */
  predicate IsNormalisedEmail(e: string)
  {
    IsTrimmed(e) && forall i :: 0 <= i < |e| ==> !IsUpperAscii(e[i])
  }

  /** What `register` may write into the users table's email column. */
  ghost predicate IsStorableEmail(e: string)
  {
    IsNormalisedEmail(e) && MatchesEmailRegex(e) && |e| <= MaxEmailLength
  }

  datatype PasswordVerdict = Accepted | Rejected(message: string)

  /** `validateEmailFormat`: `None` stands for a missing or non-string value. */
  function ValidateEmailFormat(email: Option<string>): (ok: bool)
    ensures ok <==> email.Some? && MatchesEmailRegex(ToLower(Trim(email.value)))
  {
    EmailRegexTestCorrect(if email.Some? then ToLower(Trim(email.value)) else "");
    match email
    case None => false
    case Some(s) => s != "" && EmailRegexTest(ToLower(Trim(s)))
  }

  /** `validatePasswordStrength`: the checks run in a fixed order and the first one
      that fails decides the message; the upper length bound is checked last. */
  function ValidatePasswordStrength(password: Option<string>): (r: PasswordVerdict)
    ensures r.Accepted? <==> password.Some? && IsStrongPassword(password.value)
    ensures r.Rejected? ==> r.message in {MsgPasswordRequired, MsgPasswordTooShort, MsgNoUppercase,
                                          MsgNoLowercase, MsgNoDigit, MsgNoSpecial, MsgPasswordTooLong}
    ensures password.None? || password.value == "" ==> r == Rejected(MsgPasswordRequired)
    ensures password.Some? && 0 < |password.value| < MinPasswordLength ==> r == Rejected(MsgPasswordTooShort)
    ensures password.Some? && |password.value| >= MinPasswordLength ==>
              var p := password.value;
              && (!HasUpper(p) ==> r == Rejected(MsgNoUppercase))
              && (HasUpper(p) && !HasLower(p) ==> r == Rejected(MsgNoLowercase))
              && (HasUpper(p) && HasLower(p) && !HasDigit(p) ==> r == Rejected(MsgNoDigit))
              && (HasUpper(p) && HasLower(p) && HasDigit(p) && !HasSpecial(p) ==> r == Rejected(MsgNoSpecial))
              && (HasAllClasses(p) && |p| > MaxPasswordLength ==> r == Rejected(MsgPasswordTooLong))
  {
    match password
    case None => Rejected(MsgPasswordRequired)
    case Some(p) =>
      if p == "" then Rejected(MsgPasswordRequired)
      else if |p| < MinPasswordLength then Rejected(MsgPasswordTooShort)
      else if !HasUpper(p) then Rejected(MsgNoUppercase)
      else if !HasLower(p) then Rejected(MsgNoLowercase)
      else if !HasDigit(p) then Rejected(MsgNoDigit)
      else if !HasSpecial(p) then Rejected(MsgNoSpecial)
      else if |p| > MaxPasswordLength then Rejected(MsgPasswordTooLong)
      else Accepted
  }

  /** A password that is both too long and missing a character class is told about
      the class, not about its length. */
  lemma {:induction false} OverlongPasswordGetsClassMessage(p: string)
    requires |p| > MaxPasswordLength && !HasAllClasses(p)
    ensures ValidatePasswordStrength(Some(p)).Rejected?
    ensures ValidatePasswordStrength(Some(p)).message != MsgPasswordTooLong
    ensures ValidatePasswordStrength(Some(p)).message in {MsgNoUppercase, MsgNoLowercase, MsgNoDigit, MsgNoSpecial}
  {
  }

  /** The length message is given only to passwords that pass every other check. */
  lemma {:induction false} TooLongMessageOnlyWhenOtherwiseValid(p: string)
    requires ValidatePasswordStrength(Some(p)) == Rejected(MsgPasswordTooLong)
    ensures |p| > MaxPasswordLength && HasAllClasses(p)
  {
  }

  /** Lower-casing leaves whitespace where it is, so a trimmed string stays trimmed. */
  lemma {:induction false} LowerOfTrimmedIsTrimmed(s: string)
    requires IsTrimmed(s)
    ensures IsTrimmed(ToLower(s))
  {
    if s != [] {
      LowerCharChangesOnlyUpper(s[0]);
      LowerCharChangesOnlyUpper(s[|s| - 1]);
    }
  }

  lemma {:induction false} ToLowerIdempotent(s: string)
    ensures ToLower(ToLower(s)) == ToLower(s)
  {
    var t := ToLower(s);
    forall i | 0 <= i < |s| ensures ToLower(t)[i] == t[i] {
      LowerCharChangesOnlyUpper(s[i]);
    }
  }

  /** Trimming and lower-casing yields a normalised address. */
  lemma {:induction false} NormaliseNormalises(s: string)
    ensures IsNormalisedEmail(ToLower(Trim(s)))
  {
    var t := Trim(s);
    LowerOfTrimmedIsTrimmed(t);
    forall i | 0 <= i < |t| ensures !IsUpperAscii(ToLower(t)[i]) {
      LowerCharChangesOnlyUpper(t[i]);
    }
  }

  /** A normalised address is left as it is by normalisation, so `validateEmailFormat`
      re-normalising the address `register` already normalised changes nothing. */
  lemma {:induction false} NormalisedIsFixpoint(e: string)
    requires IsNormalisedEmail(e)
    ensures ToLower(Trim(e)) == e
  {
    TrimOfTrimmed(e);
    forall i | 0 <= i < |e| ensures ToLower(e)[i] == e[i] {
      LowerCharChangesOnlyUpper(e[i]);
    }
  }

  /** The checks `register` makes before touching the users table: both fields given
      (an empty string counts as missing), the normalised address well formed and at
      most 255 characters, and the password strong. Yields the normalised address or
      the message of the first failing check. */
  function ValidateRegistration(email: Option<string>, password: Option<string>): (r: Result<string, string>)
    ensures r.Ok? <==>
              && email.Some? && password.Some?
              && MatchesEmailRegex(ToLower(Trim(email.value)))
              && |ToLower(Trim(email.value))| <= MaxEmailLength
              && IsStrongPassword(password.value)
    ensures r.Ok? ==> r.value == ToLower(Trim(email.value)) && IsStorableEmail(r.value)
    ensures email.None? || email.value == "" || password.None? || password.value == "" ==>
              r == Err(MsgCredentialsRequired)
    ensures email.Some? && email.value != "" && password.Some? && password.value != "" ==>
              var e := ToLower(Trim(email.value));
              && (!MatchesEmailRegex(e) ==> r == Err(MsgInvalidEmail))
              && (MatchesEmailRegex(e) && |e| > MaxEmailLength ==> r == Err(MsgEmailTooLong))
              && (MatchesEmailRegex(e) && |e| <= MaxEmailLength && ValidatePasswordStrength(password).Rejected? ==>
                    r == Err(ValidatePasswordStrength(password).message))
  {
    if email.None? || email.value == "" || password.None? || password.value == "" then
      Err(MsgCredentialsRequired)
    else
      var e := ToLower(Trim(email.value));
      NormaliseNormalises(email.value);
      NormalisedIsFixpoint(e);
      EmailRegexTestCorrect("");
      if !ValidateEmailFormat(Some(e)) then Err(MsgInvalidEmail)
      else if |e| > MaxEmailLength then Err(MsgEmailTooLong)
      else match ValidatePasswordStrength(password)
        case Rejected(message) => Err(message)
        case Accepted => Ok(e)
  }

  /** The checks `login` makes before any lookup: both fields given, the normalised
      address well formed, and the password not blank. */
  function ValidateLogin(email: Option<string>, password: Option<string>): (r: Result<string, string>)
    ensures r.Ok? <==>
              && email.Some? && password.Some?
              && MatchesEmailRegex(ToLower(Trim(email.value)))
              && Trim(password.value) != ""
    ensures r.Ok? ==> r.value == ToLower(Trim(email.value)) && IsNormalisedEmail(r.value)
    ensures r.Err? ==> r.error in {MsgCredentialsRequired, MsgInvalidEmail, MsgPasswordRequired}
    ensures email.None? || email.value == "" || password.None? || password.value == "" ==>
              r == Err(MsgCredentialsRequired)
    ensures email.Some? && email.value != "" && password.Some? && password.value != "" ==>
              var e := ToLower(Trim(email.value));
              && (!MatchesEmailRegex(e) ==> r == Err(MsgInvalidEmail))
              && (MatchesEmailRegex(e) && Trim(password.value) == "" ==> r == Err(MsgPasswordRequired))
  {
    if email.None? || email.value == "" || password.None? || password.value == "" then
      Err(MsgCredentialsRequired)
    else
      var e := ToLower(Trim(email.value));
      NormaliseNormalises(email.value);
      NormalisedIsFixpoint(e);
      EmailRegexTestCorrect("");
      if !ValidateEmailFormat(Some(e)) then Err(MsgInvalidEmail)
      else if Trim(password.value) == "" then Err(MsgPasswordRequired)
      else Ok(e)
  }

  /** A row of the users table. */
  datatype User = User(id: nat, email: string, passwordHash: string)

  /** The payload of the JWT a successful request returns: `{ userId, email }`. */
  datatype Session = Session(userId: nat, email: string)

  /** An HTTP answer: a session with status 201/200, or a status with a message. */
  datatype AuthResponse = Success(status: nat, session: Session) | Failure(status: nat, message: string)

  /** `SELECT ... FROM users WHERE email = ?`, first row. */
  function FindByEmail(users: seq<User>, email: string): (r: Option<User>)
    ensures r.Some? <==> exists u <- users :: u.email == email
    ensures r.Some? ==> r.value in users && r.value.email == email
  {
    if users == [] then None
    else if users[0].email == email then Some(users[0])
    else FindByEmail(users[1..], email)
  }

  /** The users table, with its auto-increment counter. */
  class UserStore {
    var users: seq<User>
    var nextId: nat

    /** Ids are increasing and below the counter, and there is at most one row per
        address, each stored normalised and well formed. */
    ghost predicate Valid()
      reads this
    {
      && (forall i, j :: 0 <= i < j < |users| ==> users[i].email != users[j].email)
      && (forall i, j :: 0 <= i < j < |users| ==> users[i].id < users[j].id)
      && 0 < nextId
      && (forall u <- users :: 0 < u.id < nextId)
      && (forall u <- users :: IsStorableEmail(u.email))
    }

    constructor ()
      ensures Valid() && users == [] && nextId == 1
    {
      users := [];
      nextId := 1;
    }

    /** `register`. `passwordHash` stands for `bcrypt.hash(password, salt)` with a fresh salt. */
    method Register(email: Option<string>, password: Option<string>, passwordHash: string)
      returns (r: AuthResponse)
      requires Valid()
      modifies this
      ensures Valid()
      ensures var v := ValidateRegistration(email, password);
              && (r.Success? <==> v.Ok? && FindByEmail(old(users), v.value).None?)
              && (r.Success? ==>
                    && users == old(users) + [User(old(nextId), v.value, passwordHash)]
                    && nextId == old(nextId) + 1
                    && r == Success(201, Session(old(nextId), v.value)))
              && (r.Failure? ==>
                    && users == old(users) && nextId == old(nextId)
                    && r.status == 400
                    && r.message == (if v.Err? then v.error else MsgUserExists))
    {
      var v := ValidateRegistration(email, password);
      if v.Err? {
        return Failure(400, v.error);
      }
      var e := v.value;
      if FindByEmail(users, e).Some? {
        return Failure(400, MsgUserExists);
      }
      var id := InsertUser(e, passwordHash);
      r := Success(201, Session(id, e));
    }

    /** `INSERT INTO users (email, password_hash)`: appends a row under the next id. */
    method InsertUser(email: string, passwordHash: string) returns (id: nat)
      requires Valid()
      requires IsStorableEmail(email) && FindByEmail(users, email).None?
      modifies this
      ensures Valid()
      ensures id == old(nextId) && nextId == old(nextId) + 1
      ensures users == old(users) + [User(id, email, passwordHash)]
    {
      id := nextId;
      ghost var before := users;
      users := users + [User(id, email, passwordHash)];
      nextId := nextId + 1;
      forall i, j | 0 <= i < j < |users|
        ensures users[i].email != users[j].email && users[i].id < users[j].id
      {
        assert users[i] == before[i] && before[i] in before;
        if j < |before| {
          assert users[j] == before[j];
        }
      }
      assert forall u <- users :: u in before || u == User(id, email, passwordHash);
    }

    /** `login`. `compare` stands for `bcrypt.compare`. An unknown address and a wrong
        password give the same answer. */
    method Login(email: Option<string>, password: Option<string>, compare: (string, string) -> bool)
      returns (r: AuthResponse)
      requires Valid()
      ensures var v := ValidateLogin(email, password);
              && (v.Err? ==> r == Failure(400, v.error))
              && (v.Ok? ==> (r.Success? <==>
                               exists u <- users :: u.email == v.value && compare(password.value, u.passwordHash)))
              && (v.Ok? && r.Failure? ==> r == Failure(401, MsgInvalidCredentials))
              && (r.Success? ==> r.status == 200
                                 && exists u <- users :: u.email == v.value && r.session == Session(u.id, u.email))
    {
      var v := ValidateLogin(email, password);
      if v.Err? {
        return Failure(400, v.error);
      }
      var found := FindByEmail(users, v.value);
      if found.None? {
        return Failure(401, MsgInvalidCredentials);
      }
      var user := found.value;
      if !compare(password.value, user.passwordHash) {
        return Failure(401, MsgInvalidCredentials);
      }
      r := Success(200, Session(user.id, user.email));
    }
  }
}
