/**
 * The password rule the account-update endpoint applies to a new password
 * (`validatePassword` in api/controllers/user.controllers.js): length, a
 * letter, a "number", a special character, checked in that order, the first
 * failure reported.
 *
 * The "number" test of the source is the regular expression `/\d]/`, which
 * matches a digit immediately followed by a literal `]`. `ValidatePassword`
 * keeps that behaviour; `ValidatePasswordIntended` is the rule with a plain
 * digit test, which is what the message asks for.
 */
module ServerPolicy {
  import opened Common
  import opened RuleChains

  const MinLength := 8

  const LengthMessage := "Password must be at least 8 characters long."
  const LetterMessage := "Password must contain at least one letter."
  const NumberMessage := "Password must contain at least one number."
  const SpecialMessage := "Password must contain at least one special character (@$!%*?&)."

  /** `[@$!%*?&]` */
  predicate IsSpecial(c: char) {
    c in "@$!%*?&"
  }

  predicate HasSpecial(s: string) {
    exists i :: 0 <= i < |s| && IsSpecial(s[i])
  }

  /** What `/\d]/` matches: a digit with a `]` right after it. */
  predicate HasDigitThenBracket(s: string) {
    exists i :: 0 <= i < |s| - 1 && IsDigit(s[i]) && s[i + 1] == ']'
  }

  predicate LongEnough(s: string) {
    |s| >= MinLength
  }

  /** The four checks in source order, with the source's number test. */
  const Rules: seq<Rule> := [
    Rule(LongEnough, LengthMessage),
    Rule(HasLetter, LetterMessage),
    Rule(HasDigitThenBracket, NumberMessage),
    Rule(HasSpecial, SpecialMessage)
  ]

  /** The same checks with the number test the message describes. */
  const IntendedRules: seq<Rule> := [
    Rule(LongEnough, LengthMessage),
    Rule(HasLetter, LetterMessage),
    Rule(HasDigit, NumberMessage),
    Rule(HasSpecial, SpecialMessage)
  ]

  /** `validatePassword` as written: `None` stands for the source's `null`. */
  function ValidatePassword(password: string): (r: Option<string>)
    ensures r.None? <==>
      |password| >= 8 && HasLetter(password) && HasDigitThenBracket(password) && HasSpecial(password)
    ensures |password| < 8 ==> r == Some(LengthMessage)
    ensures r.Some? ==> r.value in {LengthMessage, LetterMessage, NumberMessage, SpecialMessage}
  {
    if |password| < 8 then Some(LengthMessage)
    else if !HasLetter(password) then Some(LetterMessage)
    else if !HasDigitThenBracket(password) then Some(NumberMessage)
    else if !HasSpecial(password) then Some(SpecialMessage)
    else None
  }

  /** The corrected rule: `/\d/` in place of `/\d]/`. */
  function ValidatePasswordIntended(password: string): (r: Option<string>)
    ensures r.None? <==>
      |password| >= 8 && HasLetter(password) && HasDigit(password) && HasSpecial(password)
    ensures |password| < 8 ==> r == Some(LengthMessage)
  {
    if |password| < 8 then Some(LengthMessage)
    else if !HasLetter(password) then Some(LetterMessage)
    else if !HasDigit(password) then Some(NumberMessage)
    else if !HasSpecial(password) then Some(SpecialMessage)
    else None
  }

  /** The if-chain reports exactly what the ordered rule list reports: the first failure. */
  lemma ValidatePasswordIsFirstFailure(password: string)
    ensures ValidatePassword(password) == FirstFailure(Rules, password)
  {
    var r := FirstFailure(Rules, password);
    if r.Some? {
      var i :| FirstFailingAt(Rules, password, i) && r.value == Rules[i].message;
      assert i == 0 || i == 1 || i == 2 || i == 3;
      if i >= 1 { assert Rules[0].holds(password); }
      if i >= 2 { assert Rules[1].holds(password); }
      if i >= 3 { assert Rules[2].holds(password); }
    } else {
      assert AllHold(Rules, password);
      assert Rules[0].holds(password) && Rules[1].holds(password);
      assert Rules[2].holds(password) && Rules[3].holds(password);
    }
  }

  /** The corrected chain is likewise the first failure of its rule list. */
  lemma ValidatePasswordIntendedIsFirstFailure(password: string)
    ensures ValidatePasswordIntended(password) == FirstFailure(IntendedRules, password)
  {
    var r := FirstFailure(IntendedRules, password);
    if r.Some? {
      var i :| FirstFailingAt(IntendedRules, password, i) && r.value == IntendedRules[i].message;
      assert i == 0 || i == 1 || i == 2 || i == 3;
      if i >= 1 { assert IntendedRules[0].holds(password); }
      if i >= 2 { assert IntendedRules[1].holds(password); }
      if i >= 3 { assert IntendedRules[2].holds(password); }
    } else {
      assert AllHold(IntendedRules, password);
      assert IntendedRules[0].holds(password) && IntendedRules[1].holds(password);
      assert IntendedRules[2].holds(password) && IntendedRules[3].holds(password);
    }
  }

  /**
   * "abcdefg1!" has eight characters or more, a letter, a digit and a special
   * character, yet the rule as written rejects it with the number message,
   * because no digit in it is followed by `]`. The corrected rule accepts it.
   */
  lemma DigitTestNeedsBracket()
    ensures ValidatePassword("abcdefg1!") == Some(NumberMessage)
    ensures ValidatePasswordIntended("abcdefg1!") == None
  {
    var p := "abcdefg1!";
    assert IsLetter(p[0]);
    assert IsDigit(p[7]) && IsSpecial(p[8]);
    assert !HasDigitThenBracket(p) by {
      forall i | 0 <= i < |p| - 1 ensures !(IsDigit(p[i]) && p[i + 1] == ']') {
        assert p[i + 1] != ']';
      }
    }
  }

  /** A digit followed by `]` is a digit, so the rule as written never accepts what the corrected rule refuses. */
  lemma AsWrittenStricterThanIntended(password: string)
    ensures ValidatePassword(password).None? ==> ValidatePasswordIntended(password).None?
  {
    if HasDigitThenBracket(password) {
      var i :| 0 <= i < |password| - 1 && IsDigit(password[i]) && password[i + 1] == ']';
      assert HasDigit(password);
    }
  }
}
