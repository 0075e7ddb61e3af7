/**
 * The `IsbnLengthRule` validation rule: a value passes when `is_numeric`
 * accepts it and its byte length is 10 or 13. It is a shape check only; no
 * ISBN check digit is computed.
 */
module IsbnLengthRule {
  import opened Wrappers
  import opened Php

  /** The message handed to `$fail`, naming the attribute under validation. */
  function FailureMessage(attribute: string): (message: string)
    ensures |message| > 4 + |attribute| && message[4..4 + |attribute|] == attribute
  {
    "The " + attribute + " must be a 10 or 13 digit numeric string."
  }

  /** A byte length the rule admits. */
  predicate IsIsbnLength(n: int) { n == 10 || n == 13 }

  /**
   * `validate($attribute, $value, $fail)`: `None` when `$fail` is not called,
   * `Some(message)` when it is called, once, with `message`. The value itself
   * is only read. The length is consulted only after `is_numeric` holds, so it
   * is always the length of a string.
   */
  function Validate(attribute: string, value: Value): (failure: Option<string>)
    ensures failure == None <==> value.Str? && IsNumeric(value.s) && IsIsbnLength(|value.s|)
    ensures failure.Some? ==> failure.value == FailureMessage(attribute)
  {
    if !IsNumericValue(value) || !IsIsbnLength(|value.s|) then Some(FailureMessage(attribute))
    else None
  }

  /** Every all-digit string of length 10 or 13 passes. */
  lemma DigitStringsPass(attribute: string, s: string)
    requires AllDigits(s) && IsIsbnLength(|s|)
    ensures Validate(attribute, Str(s)) == None
  {
    AllDigitsIsNumeric(s);
  }

  /** The converse does not hold: a signed or decimal numeric string of length 10 passes too. */
  lemma NonDigitStringsPass(attribute: string)
    ensures Validate(attribute, Str("-123456789")) == None && !AllDigits("-123456789")
    ensures Validate(attribute, Str("1.23456789")) == None && !AllDigits("1.23456789")
  {
    SignedIsNumeric();
    DecimalIsNumeric();
  }

  /** A non-numeric string fails, whatever its length, with the attribute's message. */
  lemma NonNumericFails(attribute: string, s: string)
    requires !IsNumeric(s)
    ensures Validate(attribute, Str(s)) == Some(FailureMessage(attribute))
  {
  }

  /** A letter other than 'e' or 'E' anywhere in the value makes it fail, even at length 10 or 13. */
  lemma LettersFail(attribute: string, s: string, i: nat)
    requires i < |s| && IsLetter(s[i]) && s[i] != 'e' && s[i] != 'E'
    ensures Validate(attribute, Str(s)) == Some(FailureMessage(attribute))
  {
    LettersAreNotNumeric(s, i);
    NonNumericFails(attribute, s);
  }

  /** Any value whose length is not 10 or 13 fails, whatever its content. */
  lemma WrongLengthFails(attribute: string, s: string)
    requires !IsIsbnLength(|s|)
    ensures Validate(attribute, Str(s)) == Some(FailureMessage(attribute))
  {
  }

  /** The rule's unit-test table, accepted row of length 10. */
  lemma UnitTestAcceptsTen()
    ensures Validate("isbn", Str("1234567890")) == None
  {
    DigitStringsPass("isbn", "1234567890");
  }

  /** The rule's unit-test table, accepted row of length 13. */
  lemma UnitTestAcceptsThirteen()
    ensures Validate("isbn", Str("1234567890123")) == None
  {
    DigitStringsPass("isbn", "1234567890123");
  }

  /** The rule's unit-test table, rejected rows: lengths 9, 14, 11 and 15. */
  lemma UnitTestRejected()
    ensures Validate("isbn", Str("123456789")).Some?
    ensures Validate("isbn", Str("12345678901234")).Some?
    ensures Validate("isbn", Str("12345678901")).Some?
    ensures Validate("isbn", Str("123456789012345")).Some?
  {
    WrongLengthFails("isbn", "123456789");
    WrongLengthFails("isbn", "12345678901234");
    WrongLengthFails("isbn", "12345678901");
    WrongLengthFails("isbn", "123456789012345");
  }
}
