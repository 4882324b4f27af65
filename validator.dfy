/**
 * CreateUserViewModelValidator.cs: the four field rules a candidate user must
 * pass, evaluated against today's date, each reporting its own failures.
 */
module Validation {
  import opened Wrappers
  import opened Entities

  /** CreateUserViewModel.cs: the form's fields; the strings may be null. */
  datatype CreateUserViewModel = CreateUserViewModel(
    forename: Option<string>,
    surname: Option<string>,
    email: Option<string>,
    dateOfBirth: Date,
    isActive: bool)

  /** One failed rule: the property it is about and its message. */
  datatype ValidationFailure = ValidationFailure(propertyName: string, errorMessage: string)

  const ForenameEmpty := ValidationFailure("Forename", "Forename must not be empty or whitespace")
  const SurnameEmpty := ValidationFailure("Surname", "Surname must not be empty or whitespace")
  const EmailInvalid := ValidationFailure("Email", "Email must be a valid email address")
  const DateOfBirthMissing := ValidationFailure("DateOfBirth", "Date of Birth must be specified")
  const DateOfBirthInFuture := ValidationFailure("DateOfBirth", "Date of Birth cannot be in the future")

  /** `char.IsWhiteSpace`: the Unicode White_Space characters. */
  predicate IsWhiteSpace(c: char) {
    var n := c as int;
    || 0x09 <= n <= 0x0D || n == 0x20 || n == 0x85 || n == 0xA0 || n == 0x1680
    || 0x2000 <= n <= 0x200A || n == 0x2028 || n == 0x2029 || n == 0x202F
    || n == 0x205F || n == 0x3000
  }

  /** `string.IsNullOrWhiteSpace`, the test behind `NotEmpty` on a string. */
  predicate IsNullOrWhiteSpace(s: Option<string>) {
    s.None? || forall i :: 0 <= i < |s.value| ==> IsWhiteSpace(s.value[i])
  }

  /** `s.IndexOf(c)`: the first position of `c`, or -1. */
  function IndexOf(s: string, c: char): (k: int)
    ensures -1 <= k < |s|
    ensures k >= 0 ==> s[k] == c
    ensures forall j :: 0 <= j < |s| && (k < 0 || j < k) ==> s[j] != c
    decreases |s|
  {
    if s == [] then -1
    else if s[0] == c then 0
    else var k := IndexOf(s[1..], c); if k < 0 then -1 else k + 1
  }

  /** `s.LastIndexOf(c)`: the last position of `c`, or -1. */
  function LastIndexOf(s: string, c: char): (k: int)
    ensures -1 <= k < |s|
    ensures k >= 0 ==> s[k] == c
    ensures forall j :: k < j < |s| ==> s[j] != c
    decreases |s|
  {
    if s == [] then -1
    else if s[|s| - 1] == c then |s| - 1
    else LastIndexOf(s[..|s| - 1], c)
  }

  /**
   * `EmailAddress()` in its ASP.NET-Core-compatible mode: the first '@' is
   * neither the first nor the last character, and is the only '@'.
   */
  predicate IsEmailAddress(s: string) {
    var at := IndexOf(s, '@');
    at > 0 && at != |s| - 1 && at == LastIndexOf(s, '@')
  }

  /** The address shape the check accepts: exactly one '@', with text on both sides of it. */
  ghost predicate HasLocalAndDomain(s: string) {
    exists at :: 0 < at < |s| - 1 && s[at] == '@' && forall j :: 0 <= j < |s| && s[j] == '@' ==> j == at
  }

  /** The email check accepts exactly the strings with one '@' and text on both sides. */
  lemma IsEmailAddressMeaning(s: string)
    ensures IsEmailAddress(s) <==> HasLocalAndDomain(s)
  {
    var at := IndexOf(s, '@');
    if HasLocalAndDomain(s) {
      var a :| 0 < a < |s| - 1 && s[a] == '@' && forall j :: 0 <= j < |s| && s[j] == '@' ==> j == a;
      assert at == a;
      assert LastIndexOf(s, '@') == a;
    }
  }

  /**
   * `RuleFor(Forename).NotEmpty()`: passes exactly when the forename is present
   * and has a character that is not whitespace, and otherwise reports its one failure.
   */
  function ForenameRule(model: CreateUserViewModel): (r: seq<ValidationFailure>)
    ensures r == [] <==>
      model.forename.Some? && exists i :: 0 <= i < |model.forename.value| && !IsWhiteSpace(model.forename.value[i])
    ensures |r| <= 1 && forall f :: f in r ==> f == ForenameEmpty
  {
    if IsNullOrWhiteSpace(model.forename) then [ForenameEmpty] else []
  }

  /** `RuleFor(Surname).NotEmpty()`: the same rule, for the surname. */
  function SurnameRule(model: CreateUserViewModel): (r: seq<ValidationFailure>)
    ensures r == [] <==>
      model.surname.Some? && exists i :: 0 <= i < |model.surname.value| && !IsWhiteSpace(model.surname.value[i])
    ensures |r| <= 1 && forall f :: f in r ==> f == SurnameEmpty
  {
    if IsNullOrWhiteSpace(model.surname) then [SurnameEmpty] else []
  }

  /**
   * `RuleFor(Email).NotNull().EmailAddress()`: both checks run, and the address
   * check passes null, so at most one of them fails. The rule passes exactly
   * when the email is present with one '@' and text on both sides of it.
   */
  function EmailRule(model: CreateUserViewModel): (r: seq<ValidationFailure>)
    ensures r == [] <==> model.email.Some? && HasLocalAndDomain(model.email.value)
    ensures |r| <= 1 && forall f :: f in r ==> f == EmailInvalid
  {
    if model.email.Some? then IsEmailAddressMeaning(model.email.value); EmailChecks(model)
    else EmailChecks(model)
  }

  /** The two email checks, each reporting its own failure. */
  function EmailChecks(model: CreateUserViewModel): seq<ValidationFailure> {
    (if model.email.None? then [EmailInvalid] else [])
    + (if model.email.Some? && !IsEmailAddress(model.email.value) then [EmailInvalid] else [])
  }

  /**
   * `RuleFor(DateOfBirth).GreaterThan(default).LessThanOrEqualTo(today)`: both
   * checks run. The rule passes exactly when the date lies after the default
   * date and no later than today, and reports at most one failure.
   */
  function DateOfBirthRule(model: CreateUserViewModel, today: Date): (r: seq<ValidationFailure>)
    ensures r == [] <==> DefaultDate < model.dateOfBirth <= today
    ensures |r| <= 1 && forall f :: f in r ==> f.propertyName == "DateOfBirth"
  {
    (if model.dateOfBirth > DefaultDate then [] else [DateOfBirthMissing])
    + (if model.dateOfBirth <= today then [] else [DateOfBirthInFuture])
  }

  /** A candidate every rule accepts, stated independently of the rules. */
  ghost predicate IsValidCandidate(model: CreateUserViewModel, today: Date) {
    && !IsNullOrWhiteSpace(model.forename)
    && !IsNullOrWhiteSpace(model.surname)
    && model.email.Some? && HasLocalAndDomain(model.email.value)
    && DefaultDate < model.dateOfBirth <= today
  }

  /** `Validate`: every rule runs, in declaration order, and reports all its failures. */
  function Validate(model: CreateUserViewModel, today: Date): (errors: seq<ValidationFailure>)
    ensures |errors| <= 4
    ensures forall f :: f in errors ==>
      f in [ForenameEmpty, SurnameEmpty, EmailInvalid, DateOfBirthMissing, DateOfBirthInFuture]
  {
    ForenameRule(model) + SurnameRule(model) + EmailRule(model) + DateOfBirthRule(model, today)
  }

  /** A candidate passes validation exactly when it is valid in the independent sense. */
  lemma ValidateEmptyIffValid(model: CreateUserViewModel, today: Date)
    ensures Validate(model, today) == [] <==> IsValidCandidate(model, today)
  {
    if model.email.Some? {
      IsEmailAddressMeaning(model.email.value);
    }
  }

  /** The failures about one property, in the order reported. */
  function FieldErrors(errors: seq<ValidationFailure>, propertyName: string): (r: seq<ValidationFailure>)
    ensures forall i :: 0 <= i < |r| ==> r[i].propertyName == propertyName
    decreases |errors|
  {
    if errors == [] then []
    else (if errors[0].propertyName == propertyName then [errors[0]] else [])
         + FieldErrors(errors[1..], propertyName)
  }

  lemma {:induction false} FieldErrorsConcat(a: seq<ValidationFailure>, b: seq<ValidationFailure>, propertyName: string)
    ensures FieldErrors(a + b, propertyName) == FieldErrors(a, propertyName) + FieldErrors(b, propertyName)
    decreases |a|
  {
    if a == [] {
      assert a + b == b;
    } else {
      assert (a + b)[0] == a[0];
      assert (a + b)[1..] == a[1..] + b;
      FieldErrorsConcat(a[1..], b, propertyName);
    }
  }

  /**
   * The rules are independent: the failures reported for each property are
   * exactly that property's own rule's failures.
   */
  lemma FieldErrorsOfValidate(model: CreateUserViewModel, today: Date)
    ensures FieldErrors(Validate(model, today), "Forename") == ForenameRule(model)
    ensures FieldErrors(Validate(model, today), "Surname") == SurnameRule(model)
    ensures FieldErrors(Validate(model, today), "Email") == EmailRule(model)
    ensures FieldErrors(Validate(model, today), "DateOfBirth") == DateOfBirthRule(model, today)
  {
    FieldErrorsOfValidateFor(model, today, "Forename");
    FieldErrorsOfValidateFor(model, today, "Surname");
    FieldErrorsOfValidateFor(model, today, "Email");
    FieldErrorsOfValidateFor(model, today, "DateOfBirth");
  }

  /** The failures `Validate` reports for one property name, rule by rule. */
  lemma FieldErrorsOfValidateFor(model: CreateUserViewModel, today: Date, name: string)
    ensures FieldErrors(Validate(model, today), name)
         == (if name == "Forename" then ForenameRule(model) else [])
          + (if name == "Surname" then SurnameRule(model) else [])
          + (if name == "Email" then EmailRule(model) else [])
          + (if name == "DateOfBirth" then DateOfBirthRule(model, today) else [])
  {
    var f, s, e, d := ForenameRule(model), SurnameRule(model), EmailRule(model), DateOfBirthRule(model, today);
    FieldErrorsOfRules(f, s, e, d, name);
    FieldErrorsOfOneField(f, "Forename", name);
    FieldErrorsOfOneField(s, "Surname", name);
    OneFailureOwnsField(e, EmailInvalid);
    FieldErrorsOfOneField(e, "Email", name);
    FieldErrorsOfOneField(d, "DateOfBirth", name);
  }

  /** Filtering distributes over the four rules' failures. */
  lemma FieldErrorsOfRules(f: seq<ValidationFailure>, s: seq<ValidationFailure>, e: seq<ValidationFailure>,
                           d: seq<ValidationFailure>, name: string)
    ensures FieldErrors(f + s + e + d, name)
         == FieldErrors(f, name) + FieldErrors(s, name) + FieldErrors(e, name) + FieldErrors(d, name)
  {
    FieldErrorsConcat(f + s + e, d, name);
    FieldErrorsConcat(f + s, e, name);
    FieldErrorsConcat(f, s, name);
  }

  /** Failures that are all one failure all name its property. */
  lemma OneFailureOwnsField(errors: seq<ValidationFailure>, f: ValidationFailure)
    requires forall x :: x in errors ==> x == f
    ensures forall i :: 0 <= i < |errors| ==> errors[i].propertyName == f.propertyName
  {
    forall i | 0 <= i < |errors|
      ensures errors[i].propertyName == f.propertyName
    {
      assert errors[i] in errors;
    }
  }

  /** Filtering failures that all name one property keeps all of them or none. */
  lemma {:induction false} FieldErrorsOfOneField(errors: seq<ValidationFailure>, owner: string, name: string)
    requires forall i :: 0 <= i < |errors| ==> errors[i].propertyName == owner
    ensures FieldErrors(errors, name) == if owner == name then errors else []
    decreases |errors|
  {
    if errors != [] {
      FieldErrorsOfOneField(errors[1..], owner, name);
    }
  }

  /** At most one date-of-birth failure fires, whatever the date and today. */
  lemma AtMostOneDateOfBirthError(model: CreateUserViewModel, today: Date)
    ensures |DateOfBirthRule(model, today)| <= 1
    ensures model.dateOfBirth == DefaultDate ==> DateOfBirthRule(model, today) == [DateOfBirthMissing]
    ensures model.dateOfBirth > today ==> DateOfBirthRule(model, today) == [DateOfBirthInFuture]
    ensures DefaultDate < model.dateOfBirth <= today ==> DateOfBirthRule(model, today) == []
  {
  }

  /** Every field but the forename passes its rule. */
  predicate OthersValidExceptForename(model: CreateUserViewModel, today: Date) {
    && !IsNullOrWhiteSpace(model.surname)
    && model.email.Some? && IsEmailAddress(model.email.value)
    && DefaultDate < model.dateOfBirth <= today
  }

  /** A blank forename, with the other fields valid, gives exactly the forename failure. */
  lemma BlankForenameOneError(model: CreateUserViewModel, today: Date)
    requires IsNullOrWhiteSpace(model.forename)
    requires OthersValidExceptForename(model, today)
    ensures Validate(model, today) == [ForenameEmpty]
  {
  }

  /** A blank surname, with the other fields valid, gives exactly the surname failure. */
  lemma BlankSurnameOneError(model: CreateUserViewModel, today: Date)
    requires IsNullOrWhiteSpace(model.surname)
    requires !IsNullOrWhiteSpace(model.forename)
    requires model.email.Some? && IsEmailAddress(model.email.value)
    requires DefaultDate < model.dateOfBirth <= today
    ensures Validate(model, today) == [SurnameEmpty]
  {
  }

  /** A null or malformed email, with the other fields valid, gives exactly one email failure. */
  lemma BadEmailOneError(model: CreateUserViewModel, today: Date)
    requires model.email.None? || !IsEmailAddress(model.email.value)
    requires !IsNullOrWhiteSpace(model.forename) && !IsNullOrWhiteSpace(model.surname)
    requires DefaultDate < model.dateOfBirth <= today
    ensures Validate(model, today) == [EmailInvalid]
  {
  }

  /** The email values the validator's tests reject. */
  function RejectedTestEmails(): seq<Option<string>> {
    [Some(""), Some(" "), None, Some("   "), Some("example"), Some("@example.com"), Some("example@")]
  }

  /** Each tested bad email, in an otherwise valid model, gives exactly the one email failure. */
  lemma RejectedTestEmailsOneError(model: CreateUserViewModel, today: Date)
    requires !IsNullOrWhiteSpace(model.forename) && !IsNullOrWhiteSpace(model.surname)
    requires DefaultDate < model.dateOfBirth <= today
    ensures forall x :: x in RejectedTestEmails() ==> Validate(model.(email := x), today) == [EmailInvalid]
  {
    forall x | x in RejectedTestEmails()
      ensures Validate(model.(email := x), today) == [EmailInvalid]
    {
      RejectedTestEmailsInvalid();
      BadEmailOneError(model.(email := x), today);
    }
  }

  /** None of the rejected values is an address the email check accepts. */
  lemma RejectedTestEmailsInvalid()
    ensures forall x :: x in RejectedTestEmails() ==> x.None? || !IsEmailAddress(x.value)
  {
    NoAtIsNotAddress("");
    NoAtIsNotAddress(" ");
    NoAtIsNotAddress("   ");
    NoAtIsNotAddress("example");
    MisplacedAtIsNotAddress("@example.com");
    MisplacedAtIsNotAddress("example@");
  }

  /** A string without an '@' is not an address. */
  lemma NoAtIsNotAddress(s: string)
    requires forall j :: 0 <= j < |s| ==> s[j] != '@'
    ensures !IsEmailAddress(s)
  {
  }

  /** A string that starts or ends with an '@' is not an address. */
  lemma MisplacedAtIsNotAddress(s: string)
    requires |s| > 0 && (s[0] == '@' || s[|s| - 1] == '@')
    ensures !IsEmailAddress(s)
  {
  }

  /** A default date of birth, with the other fields valid, gives exactly "must be specified". */
  lemma DefaultDateOfBirthOneError(model: CreateUserViewModel, today: Date)
    requires model.dateOfBirth == DefaultDate
    requires !IsNullOrWhiteSpace(model.forename) && !IsNullOrWhiteSpace(model.surname)
    requires model.email.Some? && IsEmailAddress(model.email.value)
    ensures Validate(model, today) == [DateOfBirthMissing]
  {
  }

  /** A date of birth after today, with the other fields valid, gives exactly "cannot be in the future". */
  lemma FutureDateOfBirthOneError(model: CreateUserViewModel, today: Date)
    requires model.dateOfBirth > today
    requires !IsNullOrWhiteSpace(model.forename) && !IsNullOrWhiteSpace(model.surname)
    requires model.email.Some? && IsEmailAddress(model.email.value)
    ensures Validate(model, today) == [DateOfBirthInFuture]
  {
  }

  /** The blank names the validator's tests reject. */
  function BlankTestValues(): seq<Option<string>> {
    [Some(""), Some(" "), None, Some("   ")]
  }

  /** Each tested blank name is null, empty or whitespace only. */
  lemma BlankTestValuesAreBlank()
    ensures forall x :: x in BlankTestValues() ==> IsNullOrWhiteSpace(x)
  {
    assert IsWhiteSpace(' ');
  }

  /** The tests' valid model, validated on 2023-06-23. */
  function TestValidModel(): CreateUserViewModel {
    CreateUserViewModel(Some("David"), Some("NonActive"), Some("inactive@example.com"), DateOf(1984, 12, 1), false)
  }

  /** The tests' valid model has no failures, and neither does a birth date of today. */
  lemma TestValidModelPasses()
    ensures Validate(TestValidModel(), DateOf(2023, 6, 23)) == []
    ensures Validate(TestValidModel().(dateOfBirth := DateOf(2023, 6, 23)), DateOf(2023, 6, 23)) == []
  {
    AcceptedTestEmail();
    TestDatesOrdered();
    TestNamesNotBlank();
  }

  /** The tests' forename and surname are not blank. */
  lemma TestNamesNotBlank()
    ensures !IsNullOrWhiteSpace(Some("David")) && !IsNullOrWhiteSpace(Some("NonActive"))
  {
    assert !IsWhiteSpace("David"[0]);
    assert !IsWhiteSpace("NonActive"[0]);
  }

  /** The tests' accepted address passes the email check. */
  lemma AcceptedTestEmail()
    ensures IsEmailAddress("inactive@example.com")
  {
    var s := "inactive@example.com";
    assert s[8] == '@';
    assert forall j :: 0 <= j < |s| && s[j] == '@' ==> j == 8;
    assert HasLocalAndDomain(s);
    IsEmailAddressMeaning(s);
  }

  /** The tests' birth date lies after the default date and before their today. */
  lemma TestDatesOrdered()
    ensures DefaultDate < DateOf(1984, 12, 1) <= DateOf(2023, 6, 23)
  {
  }
}
