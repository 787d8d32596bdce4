/**
 * The password rule of the sign-up schema: a regular expression made of four
 * lookaheads, each asking for one character of a class further on, followed
 * by a body of at least eight characters from the allowed class, anchored at
 * both ends. It is read with JavaScript semantics (no flags): `.` matches any
 * character but a line terminator, `\d` is the ASCII digits only.
 * `RegexMatches` transcribes the expression operator by operator;
 * `Acceptable` says the same thing in plain terms, and `RegexMeaning` proves
 * the two agree. `CheckPassword` is a single left-to-right scan deciding it.
 */
module PasswordPolicy {

  /** The four character classes the four lookaheads ask for. */
  datatype CharClass = Lower | Upper | Digit | Special

  const Classes: seq<CharClass> := [Lower, Upper, Digit, Special]

  /** The punctuation the rule accepts, `[@$!%*?&]`. */
  const SpecialChars: string := "@$!%*?&"

  /** Shortest accepted password, the `{8,}` quantifier. */
  const MinLength: nat := 8

  predicate InClass(c: char, k: CharClass) {
    match k
    case Lower => 'a' <= c <= 'z'
    case Upper => 'A' <= c <= 'Z'
    case Digit => '0' <= c <= '9'
    case Special => c in SpecialChars
  }

  /** Membership in the body's class `[A-Za-z\d@$!%*?&]`. */
  predicate IsAllowed(c: char) {
    InClass(c, Lower) || InClass(c, Upper) || InClass(c, Digit) || InClass(c, Special)
  }

  /** The characters a JavaScript `.` does not match. */
  predicate IsLineTerminator(c: char) {
    c == '\n' || c == '\r' || c == '\U{2028}' || c == '\U{2029}'
  }

  /** `(?=.*[k])` tried at position 0: a character of class `k` is reached
      after a run of characters `.` accepts. */
  predicate LookaheadFinds(s: string, k: CharClass) {
    exists i :: 0 <= i < |s| && InClass(s[i], k) &&
      forall j :: 0 <= j < i ==> !IsLineTerminator(s[j])
  }

  predicate AllAllowed(s: string) {
    forall i :: 0 <= i < |s| ==> IsAllowed(s[i])
  }

  /** `[A-Za-z\d@$!%*?&]{8,}$` tried at position 0. */
  predicate BodyMatches(s: string) {
    |s| >= MinLength && AllAllowed(s)
  }

  /** The whole expression, anchored at both ends. */
  predicate RegexMatches(s: string) {
    && LookaheadFinds(s, Lower)
    && LookaheadFinds(s, Upper)
    && LookaheadFinds(s, Digit)
    && LookaheadFinds(s, Special)
    && BodyMatches(s)
  }

  predicate Contains(s: string, k: CharClass) {
    exists i :: 0 <= i < |s| && InClass(s[i], k)
  }

  /** The rule in plain terms: long enough, only allowed characters, and one
      character of every class. */
  predicate Acceptable(s: string) {
    && |s| >= MinLength
    && AllAllowed(s)
    && forall k :: k in Classes ==> Contains(s, k)
  }

  lemma AllowedIsNotLineTerminator(c: char)
    requires IsAllowed(c)
    ensures !IsLineTerminator(c)
  {
  }

  /** The regular expression accepts exactly the passwords the plain rule
      describes: the lookaheads cannot be blocked by a line terminator because
      the body already forbids every character outside the allowed class. */
  lemma RegexMeaning(s: string)
    ensures RegexMatches(s) <==> Acceptable(s)
  {
    if Acceptable(s) {
      forall k | k in Classes
        ensures LookaheadFinds(s, k)
      {
        var i :| 0 <= i < |s| && InClass(s[i], k);
        forall j | 0 <= j < i
          ensures !IsLineTerminator(s[j])
        {
          AllowedIsNotLineTerminator(s[j]);
        }
      }
      assert LookaheadFinds(s, Lower) && LookaheadFinds(s, Upper);
      assert LookaheadFinds(s, Digit) && LookaheadFinds(s, Special);
    }
    if RegexMatches(s) {
      forall k | k in Classes
        ensures Contains(s, k)
      {
        assert LookaheadFinds(s, k);
      }
    }
  }

  /** An accepted password has at least eight characters and one character of
      each of the four classes. */
  lemma AcceptedShape(s: string)
    requires RegexMatches(s)
    ensures |s| >= MinLength
    ensures exists i :: 0 <= i < |s| && 'a' <= s[i] <= 'z'
    ensures exists i :: 0 <= i < |s| && 'A' <= s[i] <= 'Z'
    ensures exists i :: 0 <= i < |s| && '0' <= s[i] <= '9'
    ensures exists i :: 0 <= i < |s| && s[i] in SpecialChars
  {
    var a :| 0 <= a < |s| && InClass(s[a], Lower);
    var b :| 0 <= b < |s| && InClass(s[b], Upper);
    var c :| 0 <= c < |s| && InClass(s[c], Digit);
    var d :| 0 <= d < |s| && InClass(s[d], Special);
  }

  /** One character outside `[A-Za-z0-9@$!%*?&]` (a space, `#`, a letter with
      an accent, a newline) rejects the password whatever else it holds. */
  lemma ForeignCharRejects(s: string, i: nat)
    requires i < |s| && !IsAllowed(s[i])
    ensures !RegexMatches(s)
  {
  }

  /** Lengthening an accepted password by an allowed character keeps it
      accepted. */
  lemma AppendKeepsAccepted(s: string, c: char)
    requires RegexMatches(s) && IsAllowed(c)
    ensures RegexMatches(s + [c])
  {
    var t := s + [c];
    RegexMeaning(s);
    forall k | k in Classes
      ensures Contains(t, k)
    {
      var i :| 0 <= i < |s| && InClass(s[i], k);
      assert t[i] == s[i];
    }
    assert AllAllowed(t) by {
      forall i | 0 <= i < |t|
        ensures IsAllowed(t[i])
      {
        if i < |s| { assert t[i] == s[i]; }
      }
    }
    RegexMeaning(t);
  }

  /** Decides the rule in one pass, remembering which classes have been seen
      and whether every character so far was allowed. */
  method CheckPassword(s: string) returns (ok: bool)
    ensures ok <==> RegexMatches(s)
  {
    var lower, upper, digit, special := false, false, false, false;
    var allowed := true;
    var i := 0;
    while i < |s|
      invariant 0 <= i <= |s|
      invariant lower <==> Contains(s[..i], Lower)
      invariant upper <==> Contains(s[..i], Upper)
      invariant digit <==> Contains(s[..i], Digit)
      invariant special <==> Contains(s[..i], Special)
      invariant allowed <==> AllAllowed(s[..i])
    {
      var c := s[i];
      ExtendPrefix(s, i);
      lower := lower || InClass(c, Lower);
      upper := upper || InClass(c, Upper);
      digit := digit || InClass(c, Digit);
      special := special || InClass(c, Special);
      allowed := allowed && IsAllowed(c);
      i := i + 1;
    }
    assert s[..|s|] == s;
    RegexMeaning(s);
    ok := |s| >= MinLength && allowed && lower && upper && digit && special;
  }

  /** What one more scanned character adds to the facts about a prefix. */
  lemma ExtendPrefix(s: string, i: nat)
    requires i < |s|
    ensures forall k :: Contains(s[..i+1], k) <==> Contains(s[..i], k) || InClass(s[i], k)
    ensures AllAllowed(s[..i+1]) <==> AllAllowed(s[..i]) && IsAllowed(s[i])
  {
    var p, q := s[..i], s[..i+1];
    assert q == p + [s[i]];
    forall k
      ensures Contains(q, k) <==> Contains(p, k) || InClass(s[i], k)
    {
      if Contains(q, k) && !InClass(s[i], k) {
        var j :| 0 <= j < |q| && InClass(q[j], k);
        assert j < |p| && p[j] == q[j];
      }
      if Contains(p, k) {
        var j :| 0 <= j < |p| && InClass(p[j], k);
        assert q[j] == p[j];
      }
      if InClass(s[i], k) {
        assert q[i] == s[i];
      }
    }
    if AllAllowed(q) {
      forall j | 0 <= j < |p|
        ensures IsAllowed(p[j])
      {
        assert p[j] == q[j];
      }
      assert q[i] == s[i];
    }
  }
}
