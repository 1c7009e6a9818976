/**
 * The password strength rule of the PasswordManager library: VerifyPassword
 * matches the whole string against the ECMAScript regular expression
 *   (?=.*[a-z])(?=.*[A-Z])(?=.*[0-9])(?=.*[^a-zA-Z0-9]).+
 * The matcher is modelled literally (four lookaheads at position 0, then `.+`
 * up to the end) and then characterised as four "contains" conditions.
 */
module Passwords {

  /** The characters `.` does not match: std::string holds bytes, so of the
      ECMAScript line terminators only line feed and carriage return can occur. */
  predicate IsLineTerminator(c: char) {
    c == '\n' || c == '\r'
  }

  /** The four bracket classes of the pattern. */
  datatype Class = Lower | Upper | Digit | Symbol

  predicate InClass(c: char, cls: Class) {
    match cls
    case Lower => 'a' <= c <= 'z'
    case Upper => 'A' <= c <= 'Z'
    case Digit => '0' <= c <= '9'
    case Symbol => !('a' <= c <= 'z') && !('A' <= c <= 'Z') && !('0' <= c <= '9')
  }

  /** The lookahead (?=.*[cls]) at the start of s: a run of non-terminators,
      then one character of the class. */
  predicate Lookahead(s: string, cls: Class) {
    exists k :: 0 <= k < |s| && InClass(s[k], cls) &&
      forall m :: 0 <= m < k ==> !IsLineTerminator(s[m])
  }

  /** `.+` consuming the whole string (regex_match anchors both ends). */
  predicate DotPlus(s: string) {
    |s| >= 1 && forall m :: 0 <= m < |s| ==> !IsLineTerminator(s[m])
  }

  /** VerifyPassword: the pattern matches the whole password. */
  predicate VerifyPassword(s: string) {
    Lookahead(s, Lower) && Lookahead(s, Upper) && Lookahead(s, Digit) &&
    Lookahead(s, Symbol) && DotPlus(s)
  }

  /** s has a character of the class somewhere. */
  predicate Contains(s: string, cls: Class) {
    exists k :: 0 <= k < |s| && InClass(s[k], cls)
  }

  predicate NoLineTerminator(s: string) {
    forall m :: 0 <= m < |s| ==> !IsLineTerminator(s[m])
  }

  /** A lookahead at the start of a string is found exactly when the class
      occurs before the first line terminator. */
  lemma {:induction false} LookaheadContains(s: string, cls: Class)
    ensures Lookahead(s, cls) ==> Contains(s, cls)
    ensures NoLineTerminator(s) ==> (Lookahead(s, cls) <==> Contains(s, cls))
  {
    if Lookahead(s, cls) {
      var k :| 0 <= k < |s| && InClass(s[k], cls) &&
        forall m :: 0 <= m < k ==> !IsLineTerminator(s[m]);
      assert Contains(s, cls);
    }
    if NoLineTerminator(s) && Contains(s, cls) {
      var k :| 0 <= k < |s| && InClass(s[k], cls);
      assert forall m :: 0 <= m < k ==> !IsLineTerminator(s[m]);
    }
  }

  /** The rule in plain terms: non-empty, no line terminator, and at least one
      lower-case letter, upper-case letter, digit and other character. */
  lemma {:induction false} VerifyPasswordIff(s: string)
    ensures VerifyPassword(s) <==>
      |s| >= 1 && NoLineTerminator(s) &&
      Contains(s, Lower) && Contains(s, Upper) && Contains(s, Digit) && Contains(s, Symbol)
  {
    LookaheadContains(s, Lower);
    LookaheadContains(s, Upper);
    LookaheadContains(s, Digit);
    LookaheadContains(s, Symbol);
  }

  /** The empty string is refused: `.+` needs a character. */
  lemma EmptyRejected()
    ensures !VerifyPassword("")
  {
  }

  /** A line feed or carriage return anywhere makes the whole match fail. */
  lemma {:induction false} LineTerminatorRejected(s: string, i: int)
    requires 0 <= i < |s| && IsLineTerminator(s[i])
    ensures !VerifyPassword(s)
  {
    assert !NoLineTerminator(s);
    VerifyPasswordIff(s);
  }

  /** Any character outside [a-zA-Z0-9], a space included, is a symbol. */
  lemma {:induction false} SpaceIsSymbol(s: string)
    requires |s| >= 1 && NoLineTerminator(s)
    requires Contains(s, Lower) && Contains(s, Upper) && Contains(s, Digit)
    requires ' ' in s
    ensures VerifyPassword(s)
  {
    var k :| 0 <= k < |s| && s[k] == ' ';
    assert InClass(s[k], Symbol);
    VerifyPasswordIff(s);
  }

  /** Adding characters that are not line terminators keeps a password accepted. */
  lemma {:induction false} AppendKeepsAccepted(s: string, t: string)
    requires VerifyPassword(s) && NoLineTerminator(t)
    ensures VerifyPassword(s + t)
  {
    VerifyPasswordIff(s);
    var u := s + t;
    forall cls: Class | Contains(s, cls) ensures Contains(u, cls) {
      var k :| 0 <= k < |s| && InClass(s[k], cls);
      assert u[k] == s[k];
    }
    forall m | 0 <= m < |u| ensures !IsLineTerminator(u[m]) {
      if m < |s| { assert u[m] == s[m]; } else { assert u[m] == t[m - |s|]; }
    }
    VerifyPasswordIff(u);
  }

  /** The worked example "Abc123!@" is accepted. */
  lemma {:induction false} ExampleAccepted()
    ensures VerifyPassword("Abc123!@")
  {
    var good := "Abc123!@";
    assert NoLineTerminator(good) by {
      forall m | 0 <= m < |good| ensures !IsLineTerminator(good[m]) {
        assert good[m] in "Abc123!@";
      }
    }
    assert InClass(good[1], Lower) && InClass(good[0], Upper);
    assert InClass(good[3], Digit) && InClass(good[6], Symbol);
    LookaheadContains(good, Lower);
    LookaheadContains(good, Upper);
    LookaheadContains(good, Digit);
    LookaheadContains(good, Symbol);
  }

  /** Without an upper-case letter the password is refused. */
  lemma {:induction false} ExampleNoUpperRejected()
    ensures !VerifyPassword("abc123!@")
  {
    var s := "abc123!@";
    forall k | 0 <= k < |s| ensures !InClass(s[k], Upper) {
      assert s[k] in "abc123!@";
    }
    LookaheadContains(s, Upper);
  }

  /** Without a digit the password is refused. */
  lemma {:induction false} ExampleNoDigitRejected()
    ensures !VerifyPassword("Abcdef!@")
  {
    var s := "Abcdef!@";
    forall k | 0 <= k < |s| ensures !InClass(s[k], Digit) {
      assert s[k] in "Abcdef!@";
    }
    LookaheadContains(s, Digit);
  }
}
