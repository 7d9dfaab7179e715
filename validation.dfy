/**
 * The registration gate of tennis/views.py: `is_valid_entry`, the ordered checks of
 * `is_valid_user`, and the lower-casing `register` applies to the username first.
 */
module Validation {
  import opened Wrappers

  /** Longest accepted entry. */
  const MaxEntryLength: nat := 30

  /** The character class `[A-Za-z\-_@0-9.']`. */
  predicate AllowedChar(c: char) {
    ('A' <= c <= 'Z') || ('a' <= c <= 'z') || ('0' <= c <= '9')
    || c == '-' || c == '_' || c == '@' || c == '.' || c == '\''
  }

  /** Every character of `s` is in the class. */
  predicate AllAllowed(s: string) {
    forall i :: 0 <= i < |s| ==> AllowedChar(s[i])
  }

  /**
   * Python's `re.match('^[...]*$', s)` run from position `i`: the starred class consumes
   * allowed characters, then `$` matches at the end of the string or just before a
   * newline that is the string's last character.
   */
  predicate MatchFrom(s: string, i: nat)
    requires i <= |s|
    ensures MatchFrom(s, i) ==> forall k :: i <= k < |s| - 1 ==> AllowedChar(s[k])
    ensures MatchFrom(s, i) && i < |s| ==> AllowedChar(s[|s| - 1]) || s[|s| - 1] == '\n'
    decreases |s| - i
  {
    if i == |s| then true
    else if AllowedChar(s[i]) then MatchFrom(s, i + 1)
    else s[i] == '\n' && i == |s| - 1
  }

  /** The regular expression succeeds on `s`. */
  predicate RegexMatches(s: string) {
    MatchFrom(s, 0)
  }

  /** What the regular expression accepts, stated without the scan. */
  predicate AllowedOrAllowedThenNewline(s: string) {
    AllAllowed(s) || (|s| > 0 && s[|s| - 1] == '\n' && AllAllowed(s[..|s| - 1]))
  }

  lemma {:induction false} MatchFromIff(s: string, i: nat)
    requires i <= |s|
    ensures MatchFrom(s, i) <==> AllowedOrAllowedThenNewline(s[i..])
    decreases |s| - i
  {
    var t := s[i..];
    if i == |s| {
      assert t == [];
    } else {
      MatchFromIff(s, i + 1);
      var u := s[i + 1..];
      assert t == [s[i]] + u;
      assert forall k :: 0 <= k < |u| ==> u[k] == t[k + 1];
      if |u| > 0 {
        var tu, uu := t[..|t| - 1], u[..|u| - 1];
        assert tu == [s[i]] + uu;
        assert forall k :: 0 <= k < |uu| ==> uu[k] == tu[k + 1];
      }
      if AllowedChar(s[i]) {
        if AllAllowed(u) {
          assert AllAllowed(t);
        }
        if |u| > 0 && u[|u| - 1] == '\n' && AllAllowed(u[..|u| - 1]) {
          assert AllAllowed(t[..|t| - 1]);
        }
      } else {
        assert !AllAllowed(t);
        if |u| > 0 {
          assert !AllAllowed(t[..|t| - 1]);
        }
      }
    }
  }

  /** The regular expression accepts exactly the allowed strings, optionally followed by one final newline. */
  lemma RegexMatchesIff(s: string)
    ensures RegexMatches(s) <==> AllowedOrAllowedThenNewline(s)
  {
    MatchFromIff(s, 0);
    assert s[0..] == s;
  }

  /** `entry and 30 >= len(entry) >= 1 and re.match(...)`. */
  predicate IsValidEntry(entry: string)
    ensures IsValidEntry(entry) <==>
      1 <= |entry| <= MaxEntryLength && AllowedOrAllowedThenNewline(entry)
  {
    RegexMatchesIff(entry);
    entry != "" && MaxEntryLength >= |entry| >= 1 && RegexMatches(entry)
  }

  /**
   * An entry is valid exactly when it has 1 to 30 characters drawn from the class,
   * the last of which may instead be a newline.
   */
  lemma ValidEntryIff(entry: string)
    ensures IsValidEntry(entry) <==>
      1 <= |entry| <= MaxEntryLength && AllowedOrAllowedThenNewline(entry)
  {
    RegexMatchesIff(entry);
  }

  /** For an entry without a newline, validity is the length bound and the character class. */
  lemma ValidEntryWithoutNewline(entry: string)
    requires forall i :: 0 <= i < |entry| ==> entry[i] != '\n'
    ensures IsValidEntry(entry) <==> 1 <= |entry| <= MaxEntryLength && AllAllowed(entry)
  {
    ValidEntryIff(entry);
  }

  /** The `$` quirk: a trailing newline passes, a newline anywhere else does not. */
  lemma TrailingNewlineQuirk()
    ensures IsValidEntry("ab\n") && IsValidEntry("\n")
    ensures !IsValidEntry("a\nb") && !IsValidEntry("ab\n\n")
    ensures !IsValidEntry("") && !IsValidEntry("a b")
  {
    ValidEntryIff("ab\n");
    ValidEntryIff("\n");
    ValidEntryIff("a\nb");
    assert "a\nb"[1] == '\n';
    ValidEntryIff("ab\n\n");
    assert "ab\n\n"[..3][2] == '\n';
    ValidEntryIff("a b");
    assert "a b"[1] == ' ';
    assert "a b"[..2][1] == ' ';
  }

  /** ASCII lower-casing of one character; every other character is left as it is. */
  function LowerChar(c: char): char {
    if 'A' <= c <= 'Z' then (c as int - 'A' as int + 'a' as int) as char else c
  }

  /** `str.lower()`, restricted to ASCII letters. */
  function Lower(s: string): (r: string)
    ensures |r| == |s|
    ensures forall i :: 0 <= i < |s| ==> r[i] == LowerChar(s[i])
    ensures forall i :: 0 <= i < |r| ==> !('A' <= r[i] <= 'Z')
  {
    if s == [] then [] else [LowerChar(s[0])] + Lower(s[1..])
  }

  /** Lower-casing twice is lower-casing once. */
  lemma LowerIdempotent(s: string)
    ensures Lower(Lower(s)) == Lower(s)
  {
    var a, b := Lower(Lower(s)), Lower(s);
    assert |a| == |b|;
    forall i | 0 <= i < |a| ensures a[i] == b[i] {
      assert a[i] == LowerChar(b[i]);
    }
  }

  /** Lower-casing neither makes a valid entry invalid nor an invalid one valid. */
  lemma LowerKeepsValidity(s: string)
    ensures IsValidEntry(Lower(s)) <==> IsValidEntry(s)
  {
    var t := Lower(s);
    ValidEntryIff(s);
    ValidEntryIff(t);
    assert forall i :: 0 <= i < |s| ==> (AllowedChar(t[i]) <==> AllowedChar(s[i]));
    assert forall i :: 0 <= i < |s| ==> (t[i] == '\n' <==> s[i] == '\n');
    if |s| > 0 {
      assert forall i :: 0 <= i < |s| - 1 ==> t[..|t| - 1][i] == t[i] && s[..|s| - 1][i] == s[i];
    }
  }

  /** The failures of `is_valid_user`, one per message. */
  datatype RegError =
    | InvalidUsername
    | UsernameTaken
    | InvalidEmail
    | EmailInUse
    | InvalidPassword
    | InvalidConfirm
    | PasswordMismatch

  /** The message shown for each failure. */
  function RegMessage(e: RegError): (msg: string)
    ensures msg != ""
  {
    match e
    case InvalidUsername => "Please enter a valid username"
    case UsernameTaken => "Username taken, please select another"
    case InvalidEmail => "Please enter a valid e-mail"
    case EmailInUse => "Email already in use"
    case InvalidPassword => "Please enter a valid password"
    case InvalidConfirm => "Please confirm your password"
    case PasswordMismatch => "Your passwords did not match."
  }

  /** Distinct failures show distinct messages, so the message names the failing check. */
  lemma RegMessageInjective(e1: RegError, e2: RegError)
    ensures RegMessage(e1) == RegMessage(e2) ==> e1 == e2
  {
  }

  /**
   * The ordered checks of `is_valid_user`. `usernames` is the set of usernames already in the
   * user table; the e-mail is looked up in that same set.
   */
  function ValidateUser(username: string, email: string, password: string, confirm: string,
                        usernames: set<string>): (r: Outcome<RegError>)
    ensures r == Fail(InvalidUsername) <==> !IsValidEntry(username)
    ensures r == Fail(UsernameTaken) <==> IsValidEntry(username) && username in usernames
    ensures r == Fail(InvalidEmail) <==>
      IsValidEntry(username) && username !in usernames && !IsValidEntry(email)
    ensures r == Fail(EmailInUse) <==>
      IsValidEntry(username) && username !in usernames && IsValidEntry(email) && email in usernames
    ensures r == Fail(InvalidPassword) <==>
      IsValidEntry(username) && username !in usernames && IsValidEntry(email) && email !in usernames
      && !IsValidEntry(password)
    ensures r == Fail(InvalidConfirm) <==>
      IsValidEntry(username) && username !in usernames && IsValidEntry(email) && email !in usernames
      && IsValidEntry(password) && !IsValidEntry(confirm)
    ensures r == Fail(PasswordMismatch) <==>
      IsValidEntry(username) && username !in usernames && IsValidEntry(email) && email !in usernames
      && IsValidEntry(password) && IsValidEntry(confirm) && password != confirm
    ensures r == Pass <==>
      IsValidEntry(username) && username !in usernames && IsValidEntry(email) && email !in usernames
      && IsValidEntry(password) && password == confirm
  {
    if !IsValidEntry(username) then Fail(InvalidUsername)
    else if username in usernames then Fail(UsernameTaken)
    else if !IsValidEntry(email) then Fail(InvalidEmail)
    else if email in usernames then Fail(EmailInUse)
    else if !IsValidEntry(password) then Fail(InvalidPassword)
    else if !IsValidEntry(confirm) then Fail(InvalidConfirm)
    else if password != confirm then Fail(PasswordMismatch)
    else Pass
  }

  /** `is_valid_user` as the source returns it: `(True, "")`, or `(False, message)`. */
  function IsValidUser(username: string, email: string, password: string, confirm: string,
                       usernames: set<string>): (r: (bool, string))
    ensures r.0 <==> ValidateUser(username, email, password, confirm, usernames) == Pass
    ensures r.0 <==> r.1 == ""
    ensures !r.0 ==> r.1 == RegMessage(ValidateUser(username, email, password, confirm, usernames).error)
    ensures r.0 ==> username !in usernames && email !in usernames && password == confirm
  {
    match ValidateUser(username, email, password, confirm, usernames)
    case Pass => (true, "")
    case Fail(e) => (false, RegMessage(e))
  }
}
