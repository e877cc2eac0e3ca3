/** The sign-up screen's input checks, run in a fixed order before any
    request, and the state it sets up once they pass. */
module Signup {
  import opened Js

  /** A character of the regular-expression class `[^\s@]`. */
  predicate EmailChar(c: char) {
    !IsSpace(c) && c != '@'
  }

  predicate AllEmailChars(s: string) {
    forall i | 0 <= i < |s| :: EmailChar(s[i])
  }

  /** `/^[^\s@]+@[^\s@]+\.[^\s@]+$/.test(s)` read literally: a non-empty run
      of `[^\s@]`, an `@`, a non-empty run, a `.` and a non-empty run, which
      together make up all of `s`. */
  ghost predicate MatchesEmailPattern(s: string) {
    exists i, j | 0 < i && i + 1 < j && j + 1 < |s| ::
      && s[i] == '@' && s[j] == '.'
      && AllEmailChars(s[..i]) && AllEmailChars(s[i + 1..j]) && AllEmailChars(s[j + 1..])
  }

  /** The number of occurrences of `c` in `s`. */
  function CountOf(s: string, c: char): nat {
    if s == [] then 0 else (if s[0] == c then 1 else 0) + CountOf(s[1..], c)
  }

  /** The index of the first `c` in `s`, or `|s|` when there is none. */
  function IndexOf(s: string, c: char): (k: nat)
    ensures k <= |s|
    ensures k < |s| ==> s[k] == c
    ensures forall m | 0 <= m < k :: s[m] != c
  {
    if s == [] then 0
    else if s[0] == c then 0
    else 1 + IndexOf(s[1..], c)
  }

  lemma {:induction false} CountOfZero(s: string, c: char)
    ensures CountOf(s, c) == 0 <==> forall m | 0 <= m < |s| :: s[m] != c
  {
    if s != [] {
      CountOfZero(s[1..], c);
      assert forall m | 1 <= m < |s| :: s[m] == s[1..][m - 1];
    }
  }

  /** With `c` at index `k`, `c` occurs once exactly when it occurs nowhere else. */
  lemma {:induction false} CountOfOne(s: string, c: char, k: nat)
    requires k < |s| && s[k] == c
    ensures CountOf(s, c) == 1 <==> forall m | 0 <= m < |s| && m != k :: s[m] != c
  {
    assert forall m | 1 <= m < |s| :: s[m] == s[1..][m - 1];
    if k == 0 {
      CountOfZero(s[1..], c);
    } else {
      CountOfZero(s[1..], c);
      CountOfOne(s[1..], c, k - 1);
    }
  }

  /** `validateEmail`, stated as a check on characters: no white space,
      exactly one `@`, something before it, and after it a `.` with at
      least one character on each side. */
  predicate ValidateEmail(email: string) {
    && (forall i | 0 <= i < |email| :: !IsSpace(email[i]))
    && CountOf(email, '@') == 1
    && var k := IndexOf(email, '@');
       0 < k && exists j | k + 1 < j < |email| - 1 :: email[j] == '.'
  }

  /** Every string the character check accepts matches the regular expression. */
  lemma ValidEmailMatchesPattern(s: string)
    requires ValidateEmail(s)
    ensures MatchesEmailPattern(s)
  {
    var k := IndexOf(s, '@');
    CountOfZero(s, '@');
    CountOfOne(s, '@', k);
    var j :| k + 1 < j < |s| - 1 && s[j] == '.';
    assert AllEmailChars(s[..k]);
    assert AllEmailChars(s[k + 1..j]);
    assert AllEmailChars(s[j + 1..]);
  }

  /** Every string the regular expression matches passes the character check. */
  lemma PatternMatchIsValidEmail(s: string)
    requires MatchesEmailPattern(s)
    ensures ValidateEmail(s)
  {
    var i, j :| 0 < i && i + 1 < j && j + 1 < |s| && s[i] == '@' && s[j] == '.'
      && AllEmailChars(s[..i]) && AllEmailChars(s[i + 1..j]) && AllEmailChars(s[j + 1..]);
    forall m | 0 <= m < |s| && m != i ensures EmailChar(s[m]) {
      if m < i {
        assert s[..i][m] == s[m];
      } else if m < j {
        assert s[i + 1..j][m - i - 1] == s[m];
      } else if m > j {
        assert s[j + 1..][m - j - 1] == s[m];
      }
    }
    CountOfOne(s, '@', i);
    assert IndexOf(s, '@') == i;
  }

  /** The character check accepts exactly the strings the regular
      expression matches. */
  lemma ValidateEmailMatchesPattern(s: string)
    ensures ValidateEmail(s) <==> MatchesEmailPattern(s)
  {
    if ValidateEmail(s) {
      ValidEmailMatchesPattern(s);
    }
    if MatchesEmailPattern(s) {
      PatternMatchIsValidEmail(s);
    }
  }

  /** The first failing check, or Accepted when all pass. */
  datatype SignupCheck = MissingField | ShortUsername | InvalidEmail | ShortPassword | Accepted

  /** The checks of `handleSignup` in their order: every field filled in,
      a user name of at least 3 characters, a valid email, a password of at
      least 8 characters. */
  function CheckSignup(username: string, email: string, password: string): (r: SignupCheck)
    ensures r == MissingField <==> username == [] || email == [] || password == []
    ensures r == ShortUsername <==>
      username != [] && email != [] && password != [] && |username| < 3
    ensures r == InvalidEmail <==>
      username != [] && email != [] && password != [] && |username| >= 3 && !ValidateEmail(email)
    ensures r == ShortPassword <==>
      username != [] && email != [] && password != [] && |username| >= 3 && ValidateEmail(email) && |password| < 8
    ensures r == Accepted <==> |username| >= 3 && ValidateEmail(email) && |password| >= 8
  {
    if username == [] || email == [] || password == [] then MissingField
    else if |username| < 3 then ShortUsername
    else if !ValidateEmail(email) then InvalidEmail
    else if |password| < 8 then ShortPassword
    else Accepted
  }

  /** Only the length of the password is checked: the upper-case letter and
      the symbol that the form lists as requirements are not. */
  lemma PasswordRulesShownButNotChecked(username: string, email: string, password: string)
    requires |username| >= 3 && ValidateEmail(email) && |password| >= 8
    ensures CheckSignup(username, email, password) == Accepted
    ensures CheckSignup(username, email, password[..7]) == ShortPassword
  {
  }

  /** The attempt counter shown while the account is being created. */
  datatype Progress = Progress(current: nat, total: nat)

  /** The number of attempts the sign-up retry loop announces at the start. */
  const SignupAttempts: nat := 12

  class SignupScreen {
    var username: string
    var email: string
    var password: string
    var loading: bool
    var progress: Option<Progress>

    constructor ()
      ensures username == [] && email == [] && password == []
      ensures !loading && progress == None
    {
      username, email, password := [], [], [];
      loading := false;
      progress := None;
    }

    /** Runs the checks; only when all pass does it set `loading` and the
        progress 0 of 12 and go on to the sign-up request (`Accepted`). */
    method HandleSignup() returns (check: SignupCheck)
      modifies this`loading, this`progress
      ensures check == CheckSignup(username, email, password)
      ensures check == Accepted ==> loading && progress == Some(Progress(0, SignupAttempts))
      ensures check != Accepted ==> loading == old(loading) && progress == old(progress)
    {
      if username == [] || email == [] || password == [] {
        return MissingField;
      }
      if |username| < 3 {
        return ShortUsername;
      }
      if !ValidateEmail(email) {
        return InvalidEmail;
      }
      if |password| < 8 {
        return ShortPassword;
      }
      loading := true;
      progress := Some(Progress(0, SignupAttempts));
      check := Accepted;
    }

    /** The progress callback: it updates the counter only while the screen
        is still shown. */
    method ReportProgress(current: nat, total: nat, mounted: bool)
      modifies this`progress
      ensures progress == if mounted then Some(Progress(current, total)) else old(progress)
    {
      if mounted {
        progress := Some(Progress(current, total));
      }
    }

    /** The `finally` step once the request settles: a screen still shown
        leaves the loading state and drops the counter. */
    method FinishSignup(mounted: bool)
      modifies this`loading, this`progress
      ensures mounted ==> !loading && progress == None
      ensures !mounted ==> loading == old(loading) && progress == old(progress)
    {
      if mounted {
        loading := false;
        progress := None;
      }
    }
  }
}
