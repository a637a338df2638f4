/**
 * The two regular expressions shared by the register, login and forgot-password screens:
 *   regexEmail    = /^[^\s@]+@[^\s@]+\.[^\s@]+$/
 *   regexPassword = /^(?=.*[a-z])(?=.*[A-Z])(?=.*\d)(?=.*[\W_]).{8,}$/
 * Each is given twice: as the language the expression denotes (a ghost predicate that
 * follows the expression's structure) and as the check `test` performs (a function),
 * and the two are proved to accept the same strings.
 */
module CredentialPatterns {
  import opened Wrappers
  import opened Text

  /** The messages the screens show when one of the two checks fails. */
  const InvalidEmailMessage := "E-mail inválido"
  const WeakPasswordMessage := "A senha deve conter no mínimo 8 caracteres, letra maiúscula, minúscula, número e símbolo"

  // ---------------------------------------------------------------- e-mail

  /** `[^\s@]+`: one or more characters, none of them whitespace or '@'. */
  predicate EmailAtom(s: string) {
    |s| >= 1 && forall i :: 0 <= i < |s| ==> !IsJsSpace(s[i]) && s[i] != '@'
  }

  /** The language of regexEmail: `s` is atom '@' atom '.' atom, anchored at both ends. */
  ghost predicate EmailRegexMatches(s: string) {
    exists i, j :: 0 <= i < j < |s| && EmailAtom(s[..i]) && s[i] == '@'
      && EmailAtom(s[i + 1..j]) && s[j] == '.' && EmailAtom(s[j + 1..])
  }

  /** The index of the first occurrence of `c` in `s`. */
  function IndexOf(s: string, c: char): (r: Option<nat>)
    ensures r.None? ==> c !in s
    ensures r.Some? ==> r.value < |s| && s[r.value] == c && c !in s[..r.value]
  {
    if s == [] then None
    else if s[0] == c then Some(0)
    else
      match IndexOf(s[1..], c)
      case None => None
      case Some(k) => assert s[..k + 1] == [s[0]] + s[1..][..k]; Some(k + 1)
  }

  /** An occurrence with none before it is the one `IndexOf` finds. */
  lemma {:induction false} IndexOfFirst(s: string, c: char, i: nat)
    requires i < |s| && s[i] == c && c !in s[..i]
    ensures IndexOf(s, c) == Some(i)
  {
    if i > 0 {
      assert s[0] == s[..i][0];
      assert s[1..][..i - 1] == s[..i][1..];
      IndexOfFirst(s[1..], c, i - 1);
    }
  }

  /** The domain part: an atom with a '.' somewhere strictly inside it. */
  predicate EmailDomain(d: string) {
    EmailAtom(d) && exists k :: 0 < k < |d| - 1 && d[k] == '.'
  }

  /** `regexEmail.test(s)`: cut at the first '@'; the left part is an atom (so no
      whitespace and no other '@'), the right part is a domain. */
  predicate IsValidEmail(s: string) {
    match IndexOf(s, '@')
    case None => false
    case Some(at) => EmailAtom(s[..at]) && EmailDomain(s[at + 1..])
  }

  /** Any split the expression finds cuts at the first '@' and yields a valid domain. */
  lemma MatchSplitIsValid(s: string, i: nat, j: nat)
    requires 0 <= i < j < |s| && EmailAtom(s[..i]) && s[i] == '@'
    requires EmailAtom(s[i + 1..j]) && s[j] == '.' && EmailAtom(s[j + 1..])
    ensures IsValidEmail(s)
  {
    IndexOfFirst(s, '@', i);
    var d := s[i + 1..];
    var k := j - i - 1;
    assert d[k] == '.';
    forall m | 0 <= m < |d| ensures !IsJsSpace(d[m]) && d[m] != '@' {
      if m < k { assert d[m] == s[i + 1..j][m]; }
      else if m > k { assert d[m] == s[j + 1..][m - k - 1]; }
    }
  }

  /** The cut at the first '@' and the '.' inside the domain give the expression's split. */
  lemma ValidIsMatch(s: string)
    requires IsValidEmail(s)
    ensures EmailRegexMatches(s)
  {
    var at := IndexOf(s, '@').value;
    var d := s[at + 1..];
    var k :| 0 < k < |d| - 1 && d[k] == '.';
    var j := at + 1 + k;
    assert s[at + 1..j] == d[..k];
    assert s[j + 1..] == d[k + 1..];
    assert s[j] == d[k];
    assert EmailAtom(s[..at]) && EmailAtom(s[at + 1..j]) && EmailAtom(s[j + 1..]);
  }

  /** The check accepts exactly the language of regexEmail. */
  lemma EmailPatternIff(s: string)
    ensures IsValidEmail(s) <==> EmailRegexMatches(s)
  {
    if EmailRegexMatches(s) {
      var i, j :| 0 <= i < j < |s| && EmailAtom(s[..i]) && s[i] == '@'
        && EmailAtom(s[i + 1..j]) && s[j] == '.' && EmailAtom(s[j + 1..]);
      MatchSplitIsValid(s, i, j);
    }
    if IsValidEmail(s) {
      ValidIsMatch(s);
    }
  }

  /** A valid e-mail is never empty: the emptiness check before it only chooses the message. */
  lemma ValidEmailNonEmpty(s: string)
    ensures IsValidEmail(s) ==> |s| >= 5
  {
    if IsValidEmail(s) {
      var at := IndexOf(s, '@').value;
      assert |s[at + 1..]| >= 3;
    }
  }

  // ---------------------------------------------------------------- password

  datatype CharClass = Lower | UpperCase | Digit | Symbol | LineBreak

  /** `[a-z]`, `[A-Z]`, `\d`, `[\W_]` (anything but an ASCII letter or digit), and the
      characters `.` refuses. */
  predicate InClass(c: char, k: CharClass) {
    match k
    case Lower => 'a' <= c <= 'z'
    case UpperCase => 'A' <= c <= 'Z'
    case Digit => '0' <= c <= '9'
    case Symbol => !('a' <= c <= 'z' || 'A' <= c <= 'Z' || '0' <= c <= '9')
    case LineBreak => IsLineTerminator(c)
  }

  /** A lookahead `(?=.*[K])` at the start: some character of class `k` is reached
      before any line terminator. */
  ghost predicate LookaheadFinds(s: string, k: CharClass) {
    exists i :: 0 <= i < |s| && InClass(s[i], k)
      && forall m :: 0 <= m < i ==> !IsLineTerminator(s[m])
  }

  /** The language of regexPassword: the four lookaheads succeed and `.{8,}$` consumes
      the whole string. */
  ghost predicate PasswordRegexMatches(s: string) {
    && LookaheadFinds(s, Lower) && LookaheadFinds(s, UpperCase)
    && LookaheadFinds(s, Digit) && LookaheadFinds(s, Symbol)
    && |s| >= 8 && forall i :: 0 <= i < |s| ==> !IsLineTerminator(s[i])
  }

  function ClassesOf(c: char): set<CharClass> {
    (if InClass(c, Lower) then {Lower} else {})
    + (if InClass(c, UpperCase) then {UpperCase} else {})
    + (if InClass(c, Digit) then {Digit} else {})
    + (if InClass(c, Symbol) then {Symbol} else {})
    + (if InClass(c, LineBreak) then {LineBreak} else {})
  }

  /** The classes that occur in `s`, gathered in one pass. */
  function Classes(s: string): set<CharClass> {
    if s == [] then {} else ClassesOf(s[0]) + Classes(s[1..])
  }

  /** A class is gathered exactly when some character of `s` belongs to it. */
  lemma {:induction false} ClassesPresent(s: string, k: CharClass)
    ensures k in Classes(s) <==> exists i :: 0 <= i < |s| && InClass(s[i], k)
  {
    if s != [] {
      ClassesPresent(s[1..], k);
      if exists i :: 0 <= i < |s[1..]| && InClass(s[1..][i], k) {
        var i :| 0 <= i < |s[1..]| && InClass(s[1..][i], k);
        assert InClass(s[i + 1], k);
      }
      if exists i :: 0 <= i < |s| && InClass(s[i], k) {
        var i :| 0 <= i < |s| && InClass(s[i], k);
        if i > 0 { assert InClass(s[1..][i - 1], k); }
      }
    }
  }

  const Required: set<CharClass> := {Lower, UpperCase, Digit, Symbol}

  /** `regexPassword.test(s)`. */
  predicate IsStrongPassword(s: string) {
    var found := Classes(s);
    |s| >= 8 && LineBreak !in found && Required <= found
  }

  /** The one-pass check accepts exactly the language of regexPassword. */
  lemma PasswordPatternIff(s: string)
    ensures IsStrongPassword(s) <==> PasswordRegexMatches(s)
  {
    ClassesPresent(s, Lower);
    ClassesPresent(s, UpperCase);
    ClassesPresent(s, Digit);
    ClassesPresent(s, Symbol);
    ClassesPresent(s, LineBreak);
    var noBreak := forall i :: 0 <= i < |s| ==> !IsLineTerminator(s[i]);
    if noBreak {
      forall k: CharClass ensures LookaheadFinds(s, k) <==> exists i :: 0 <= i < |s| && InClass(s[i], k) {
        if exists i :: 0 <= i < |s| && InClass(s[i], k) {
          var i :| 0 <= i < |s| && InClass(s[i], k);
          assert forall m :: 0 <= m < i ==> !IsLineTerminator(s[m]);
        }
      }
    }
  }
}
