/** Input validation shared by the signup page and the server: the password
    policy, the username and email shapes, and the two orders in which the
    client and the server apply them. */
module Validation {
  import opened Common
  import opened Text

  /** The punctuation set of the password rule: `!@#$%^&*(),.?":{}|<>`. */
  predicate IsSpecial(c: char) {
    c in "!@#$%^&*(),.?\":{}|<>"
  }

  /** `[A-Za-z0-9_]`. */
  predicate IsWordChar(c: char) {
    IsUpper(c) || IsLower(c) || IsDigit(c) || c == '_'
  }

  /** The one-character classes the regular expressions test for. */
  datatype CharClass = Uppercase | Lowercase | Digit | Special | Whitespace | NotWord

  predicate InClass(c: char, k: CharClass) {
    match k
    case Uppercase => IsUpper(c)
    case Lowercase => IsLower(c)
    case Digit => IsDigit(c)
    case Special => IsSpecial(c)
    case Whitespace => IsSpace(c)
    case NotWord => !IsWordChar(c)
  }

  /** Some character of `s` is in the class. */
  ghost predicate HasClass(s: string, k: CharClass) {
    exists i :: 0 <= i < |s| && InClass(s[i], k)
  }

  /** `/[...]/.test(s)`, scanning left to right. */
  function Test(s: string, k: CharClass): (found: bool)
    ensures found <==> HasClass(s, k)
    decreases |s|
  {
    if s == [] then false else InClass(s[0], k) || Test(s[1..], k)
  }

  // ---------------------------------------------------------------- passwords

  const MinPasswordLength: nat := 8

  /** The five rules of the policy, in the order they are checked. */
  datatype PasswordRule = TooShort | NoUppercase | NoLowercase | NoDigit | NoSpecial

  function Rank(rule: PasswordRule): nat {
    match rule
    case TooShort => 0
    case NoUppercase => 1
    case NoLowercase => 2
    case NoDigit => 3
    case NoSpecial => 4
  }

  /** Whether `p` satisfies the rule `rule` names, stated over positions. */
  ghost predicate Satisfies(p: string, rule: PasswordRule) {
    match rule
    case TooShort => |p| >= MinPasswordLength
    case NoUppercase => HasClass(p, Uppercase)
    case NoLowercase => HasClass(p, Lowercase)
    case NoDigit => HasClass(p, Digit)
    case NoSpecial => HasClass(p, Special)
  }

  /** A password the policy accepts: every rule holds. */
  ghost predicate StrongPassword(p: string) {
    forall rule :: Satisfies(p, rule)
  }

  datatype PasswordVerdict = Accepted | Rejected(rule: PasswordRule)

  function PasswordMessage(rule: PasswordRule): string {
    match rule
    case TooShort => "Password must be at least 8 characters long."
    case NoUppercase => "Password must contain at least one uppercase letter."
    case NoLowercase => "Password must contain at least one lowercase letter."
    case NoDigit => "Password must contain at least one number."
    case NoSpecial => "Password must contain at least one special character (!@#$%^&*...)."
  }

  /** `validatePassword` of the signup page: accepted exactly when all five
      rules hold; otherwise the first rule that fails, in policy order. */
  function ValidatePassword(p: string): (v: PasswordVerdict)
    ensures v.Accepted? <==> StrongPassword(p)
    ensures v.Rejected? ==> !Satisfies(p, v.rule)
    ensures v.Rejected? ==> forall rule :: Rank(rule) < Rank(v.rule) ==> Satisfies(p, rule)
    ensures |p| < MinPasswordLength ==> v == Rejected(TooShort)
  {
    var hasUpper := Test(p, Uppercase);
    var hasLower := Test(p, Lowercase);
    var hasDigit := Test(p, Digit);
    var hasSpecial := Test(p, Special);
    if |p| < MinPasswordLength then
      assert !Satisfies(p, TooShort);
      Rejected(TooShort)
    else if !hasUpper then
      assert !Satisfies(p, NoUppercase);
      Rejected(NoUppercase)
    else if !hasLower then
      assert !Satisfies(p, NoLowercase);
      Rejected(NoLowercase)
    else if !hasDigit then
      assert !Satisfies(p, NoDigit);
      Rejected(NoDigit)
    else if !hasSpecial then
      assert !Satisfies(p, NoSpecial);
      Rejected(NoSpecial)
    else Accepted
  }

  /** The server's password test: length at least 8, then the four
      character classes together. It accepts exactly the passwords the
      signup page accepts. */
  function ServerPasswordOk(p: string): (ok: bool)
    ensures ok <==> ValidatePassword(p).Accepted?
  {
    |p| >= MinPasswordLength
    && Test(p, Uppercase) && Test(p, Lowercase) && Test(p, Digit) && Test(p, Special)
  }

  // ---------------------------------------------------------------- usernames

  /** `/^[a-zA-Z0-9_]{3,20}$/`. */
  function IsUsername(s: string): (ok: bool)
    ensures ok <==> 3 <= |s| <= 20 && forall i :: 0 <= i < |s| ==> IsWordChar(s[i])
  {
    3 <= |s| <= 20 && !Test(s, NotWord)
  }

  // ---------------------------------------------------------------- emails

  /** The position of the first `c` in `s`. */
  function IndexOf(s: string, c: char): (r: Option<nat>)
    ensures r.None? <==> c !in s
    ensures r.Some? ==> r.value < |s| && s[r.value] == c && c !in s[..r.value]
    decreases |s|
  {
    if s == [] then None
    else if s[0] == c then Some(0)
    else
      var r := IndexOf(s[1..], c);
      if r.None? then None else
        assert s[1..][..r.value] == s[1..r.value + 1];
        Some(r.value + 1)
  }

  /** A piece of the email pattern: one or more characters, none of them
      white space or `@` (`[^\s@]+`). */
  ghost predicate Atom(s: string) {
    |s| > 0 && forall i :: 0 <= i < |s| ==> !IsSpace(s[i]) && s[i] != '@'
  }

  /** The pattern `/^[^\s@]+@[^\s@]+\.[^\s@]+$/`, read literally: three atoms
      joined by an `@` and a `.`. */
  ghost predicate EmailPattern(s: string) {
    exists i, j :: 0 < i < j < |s| - 1 && s[i] == '@' && s[j] == '.'
      && Atom(s[..i]) && Atom(s[i + 1..j]) && Atom(s[j + 1..])
  }

  predicate NoSpace(s: string) {
    forall k :: 0 <= k < |s| ==> !IsSpace(s[k])
  }

  /** Position `i` holds the only `@` of `s`. */
  ghost predicate OnlyAt(s: string, i: int) {
    0 <= i < |s| && s[i] == '@' && forall k :: 0 <= k < |s| && s[k] == '@' ==> k == i
  }

  /** Some `.` of `s` lies after position `i + 1` and before the last character. */
  ghost predicate DotAfter(s: string, i: int) {
    0 <= i && exists j :: i + 1 < j < |s| - 1 && s[j] == '.'
  }

  /** The email test as the characters it allows: no white space, exactly
      one `@` with something before it, and a `.` strictly inside the part
      after it. */
  ghost predicate EmailShape(s: string) {
    NoSpace(s) && exists i :: 0 < i && OnlyAt(s, i) && DotAfter(s, i)
  }

  /** What the scan computes, once the first `@` has been found at `at`. */
  predicate ScanAccepts(s: string, at: Option<nat>) {
    !Test(s, Whitespace) && at.Some? && 0 < at.value < |s|
      && '@' !in s[at.value + 1..]
      && at.value + 2 <= |s| - 1 && '.' in s[at.value + 2..|s| - 1]
  }

  /** The email test, computed by scanning for the `@` and then for a `.`
      after it. It accepts exactly the strings the pattern matches. */
  function IsEmail(s: string): (ok: bool)
    ensures ok <==> EmailPattern(s)
    ensures ok <==> EmailShape(s)
  {
    var at := IndexOf(s, '@');
    var ok := ScanAccepts(s, at);
    ScanIsShape(s, at);
    ShapeGivesPattern(s);
    PatternGivesShape(s);
    ok
  }

  lemma ScanIsShape(s: string, at: Option<nat>)
    requires at == IndexOf(s, '@')
    ensures ScanAccepts(s, at) <==> EmailShape(s)
  {
    if ScanAccepts(s, at) {
      ScanGivesShape(s, at);
    }
    if EmailShape(s) {
      ShapeGivesScan(s, at);
    }
  }

  lemma ScanGivesShape(s: string, at: Option<nat>)
    requires at == IndexOf(s, '@') && ScanAccepts(s, at)
    ensures EmailShape(s)
  {
    var i := at.value;
    forall k | 0 <= k < |s| && k != i ensures s[k] != '@' {
      if k < i {
        assert s[..i][k] == s[k];
      } else {
        assert s[i + 1..][k - i - 1] == s[k];
      }
    }
    assert OnlyAt(s, i);
    var d := s[i + 2..|s| - 1];
    var m :| 0 <= m < |d| && d[m] == '.';
    assert s[i + 2 + m] == '.';
    assert DotAfter(s, i);
  }

  lemma ShapeGivesScan(s: string, at: Option<nat>)
    requires at == IndexOf(s, '@') && EmailShape(s)
    ensures ScanAccepts(s, at)
  {
    var i :| 0 < i && OnlyAt(s, i) && DotAfter(s, i);
    var j :| i + 1 < j < |s| - 1 && s[j] == '.';
    assert at.Some? && at.value == i;
    var after := s[i + 1..];
    forall m | 0 <= m < |after| ensures after[m] != '@' {
      assert after[m] == s[i + 1 + m];
    }
    assert s[i + 2..|s| - 1][j - i - 2] == '.';
  }

  lemma ShapeGivesPattern(s: string)
    ensures EmailShape(s) ==> EmailPattern(s)
  {
    if EmailShape(s) {
      var i :| 0 < i && OnlyAt(s, i) && DotAfter(s, i);
      var j :| i + 1 < j < |s| - 1 && s[j] == '.';
      AtomOfSlice(s, 0, i, i);
      AtomOfSlice(s, i + 1, j, i);
      AtomOfSlice(s, j + 1, |s|, i);
      assert s[0..i] == s[..i] && s[j + 1..|s|] == s[j + 1..];
    }
  }

  lemma PatternGivesShape(s: string)
    ensures EmailPattern(s) ==> EmailShape(s)
  {
    if EmailPattern(s) {
      var i, j :| 0 < i < j < |s| - 1 && s[i] == '@' && s[j] == '.'
        && Atom(s[..i]) && Atom(s[i + 1..j]) && Atom(s[j + 1..]);
      forall k | 0 <= k < |s| ensures !IsSpace(s[k]) && (s[k] == '@' ==> k == i) {
        if k < i {
          assert s[..i][k] == s[k];
        } else if i < k < j {
          assert s[i + 1..j][k - i - 1] == s[k];
        } else if j < k {
          assert s[j + 1..][k - j - 1] == s[k];
        }
      }
      assert OnlyAt(s, i) && DotAfter(s, i);
    }
  }

  lemma AtomOfSlice(s: string, lo: nat, hi: nat, at: nat)
    requires lo < hi <= |s|
    requires NoSpace(s) && OnlyAt(s, at)
    requires at < lo || hi <= at
    ensures Atom(s[lo..hi])
  {
    forall m | 0 <= m < hi - lo ensures !IsSpace(s[lo..hi][m]) && s[lo..hi][m] != '@' {
      assert s[lo..hi][m] == s[lo + m];
    }
  }

  /** A valid username never has the shape of an email address, so the
      identifier of a lookup by "username or email" cannot be both. */
  lemma UsernameIsNeverEmail(s: string)
    requires IsUsername(s)
    ensures !IsEmail(s)
  {
    assert forall k :: 0 <= k < |s| ==> s[k] != '@';
  }

  // ---------------------------------------------------------------- signup order

  /** Why a signup form is refused, in the order the signup page checks. */
  datatype FormProblem = MissingField | WeakPassword(rule: PasswordRule) | InvalidEmail | InvalidUsername

  /** The signup page's checks on the trimmed username, the trimmed email
      and the password: empty field, then password policy, then email, then
      username; the first failure decides. */
  function ClientSignupCheck(username: string, email: string, password: string): (r: Option<FormProblem>)
    ensures r.None? <==>
      username != "" && email != "" && StrongPassword(password) && IsEmail(email) && IsUsername(username)
    ensures r == Some(MissingField) <==> username == "" || email == "" || password == ""
    ensures r.Some? && r.value.WeakPassword? <==>
      username != "" && email != "" && password != "" && ValidatePassword(password).Rejected?
    ensures r.Some? && r.value.WeakPassword? ==> ValidatePassword(password) == Rejected(r.value.rule)
    ensures r == Some(InvalidEmail) <==>
      username != "" && email != "" && StrongPassword(password) && !IsEmail(email)
    ensures r == Some(InvalidUsername) <==>
      username != "" && email != "" && StrongPassword(password) && IsEmail(email) && !IsUsername(username)
  {
    if username == "" || email == "" || password == "" then
      assert !Satisfies(password, TooShort) || password != "";
      Some(MissingField)
    else match ValidatePassword(password)
      case Rejected(rule) => Some(WeakPassword(rule))
      case Accepted =>
        if !IsEmail(email) then Some(InvalidEmail)
        else if !IsUsername(username) then Some(InvalidUsername)
        else None
  }

  function FormMessage(problem: FormProblem): string {
    match problem
    case MissingField => "Please fill all required fields."
    case WeakPassword(rule) => PasswordMessage(rule)
    case InvalidEmail => "Please enter a valid email address."
    case InvalidUsername => "Username must be 3-20 characters and contain only letters, numbers, and underscores."
  }

  /** Why the server refuses a signup body, in the order it checks. */
  datatype InputProblem = MissingOrShort | PasswordClasses | EmailFormat | UsernameFormat

  /** The server's checks on the trimmed username, the trimmed email and the
      raw password: empty username or email or a password shorter than 8,
      then the four character classes, then email, then username. It
      refuses exactly the forms the signup page refuses. */
  function ServerSignupCheck(username: string, email: string, password: string): (r: Option<InputProblem>)
    ensures r.None? <==> ClientSignupCheck(username, email, password).None?
    ensures r == Some(MissingOrShort) <==> username == "" || email == "" || |password| < MinPasswordLength
    ensures r == Some(PasswordClasses) <==>
      username != "" && email != "" && |password| >= MinPasswordLength && !ServerPasswordOk(password)
    ensures r == Some(EmailFormat) <==>
      username != "" && email != "" && ServerPasswordOk(password) && !IsEmail(email)
    ensures r == Some(UsernameFormat) <==>
      username != "" && email != "" && ServerPasswordOk(password) && IsEmail(email) && !IsUsername(username)
  {
    if username == "" || email == "" || |password| < MinPasswordLength then Some(MissingOrShort)
    else if !(Test(password, Uppercase) && Test(password, Lowercase) && Test(password, Digit)
              && Test(password, Special)) then Some(PasswordClasses)
    else if !IsEmail(email) then Some(EmailFormat)
    else if !IsUsername(username) then Some(UsernameFormat)
    else None
  }

  function InputMessage(problem: InputProblem): string {
    match problem
    case MissingOrShort => "Invalid input (check required fields, password length ≥ 8)."
    case PasswordClasses => "Password must contain at least one uppercase letter, one lowercase letter, one number, and one special character."
    case EmailFormat => "Invalid email format."
    case UsernameFormat => "Username must be 3-20 characters and contain only letters, numbers, and underscores."
  }
}
