/**
 * The registration form (src/user/Registration.jsx): twelve text fields, the
 * validation rules of `validateForm`, and the `handleInputChange` and
 * `handleSubmit` handlers that update the component's four state variables.
 */
module Registration {
  import opened Wrappers
  import opened Text
  import opened Email
  import opened Phone
  import opened Age
  import opened FormCore

  /** The inputs of the form, one per key of `formData` ("firstName", "lastName", ...). */
  datatype Field =
    | FirstName | LastName | Email | Password | ConfirmPassword | PhoneNumber
    | DateOfBirth | LicenseNumber | Address | City | ZipCode | Country

  /** `formData`: the text of every input. */
  type Fields = map<Field, string>

  /** Turns the `dateOfBirth` text into a date, as `new Date(text)` does; None for an Invalid Date. */
  type DateParser = string -> Option<Date>

  const AllFields: set<Field> := {
    FirstName, LastName, Email, Password, ConfirmPassword, PhoneNumber,
    DateOfBirth, LicenseNumber, Address, City, ZipCode, Country}

  /** The fields that validateForm reads; Address, City, ZipCode and Country are never validated. */
  const ValidatedFields: set<Field> := {
    FirstName, LastName, Email, Password, ConfirmPassword, PhoneNumber, DateOfBirth, LicenseNumber}

  /** Every field empty: the initial state and the state after a successful registration. */
  const EmptyForm: Fields := map k | k in AllFields :: ""

  // Messages written by validateForm.
  const FirstNameRequired := "First name is required"
  const LastNameRequired := "Last name is required"
  const ConfirmRequired := "Confirm password is required"
  const PhoneRequired := "Phone number is required"
  const BirthDateRequired := "Date of birth is required"
  const LicenseRequired := "License number is required"
  const PasswordTooShort := "Password must be at least 8 characters long"
  const PasswordMismatch := "Passwords do not match"
  const InvalidPhone := "Please enter a valid phone number"
  const TooYoung := "You must be at least 18 years old to register"

  /** The minimum password length. */
  const MinPasswordLength := 8

  // Messages written by handleSubmit. The success text is the single source
  // string, written in two pieces so that the verifier can index into it.
  const SuccessMessage := "Registration successful! " + "Please check your email to verify your account."
  const FailurePrefix := "Registration failed: "
  const FailureFallback := "Please try again."
  const NetworkFailure := "Registration failed: Network error. Please try again."

  /** The message of the required-field check of a validated field. */
  function RequiredMessage(k: Field): string
  {
    match k
    case FirstName => FirstNameRequired
    case LastName => LastNameRequired
    case Email => EmailRequired
    case Password => PasswordRequired
    case ConfirmPassword => ConfirmRequired
    case PhoneNumber => PhoneRequired
    case DateOfBirth => BirthDateRequired
    case LicenseNumber => LicenseRequired
    case _ => ""
  }

  /**
   * The properties of `newErrors` that validateForm can write, each absent
   * (None) or holding a message.
   */
  datatype ErrorSlots = ErrorSlots(
    firstName: Option<string>, lastName: Option<string>, email: Option<string>,
    password: Option<string>, confirmPassword: Option<string>, phoneNumber: Option<string>,
    dateOfBirth: Option<string>, licenseNumber: Option<string>)
  {
    /** Every property present holds a message. */
    predicate MessagesNonEmpty()
    {
      && (firstName.Some? ==> firstName.value != "")
      && (lastName.Some? ==> lastName.value != "")
      && (email.Some? ==> email.value != "")
      && (password.Some? ==> password.value != "")
      && (confirmPassword.Some? ==> confirmPassword.value != "")
      && (phoneNumber.Some? ==> phoneNumber.value != "")
      && (dateOfBirth.Some? ==> dateOfBirth.value != "")
      && (licenseNumber.Some? ==> licenseNumber.value != "")
    }

    /** No property is present: `{}`. */
    predicate IsEmpty()
    {
      && firstName.None? && lastName.None? && email.None? && password.None?
      && confirmPassword.None? && phoneNumber.None? && dateOfBirth.None? && licenseNumber.None?
    }

    /** The object as a map: one key per property present. */
    function ToMap(): (r: Errors<Field>)
      ensures r == map[] <==> IsEmpty()
      ensures MessagesNonEmpty() ==> AllShown(r)
    {
      var r := Put(map[], FirstName, firstName);
      var r := Put(r, LastName, lastName);
      var r := Put(r, Email, email);
      var r := Put(r, Password, password);
      var r := Put(r, ConfirmPassword, confirmPassword);
      var r := Put(r, PhoneNumber, phoneNumber);
      var r := Put(r, DateOfBirth, dateOfBirth);
      Put(r, LicenseNumber, licenseNumber)
    }
  }

  /** A field required on its trimmed value. */
  function TrimmedRequired(value: string, message: string): Option<string>
  {
    if IsBlank(value) then Some(message) else None
  }

  /** The password's final message: the length message for a short non-empty password. */
  function PasswordError(password: string): Option<string>
  {
    if password == "" then Some(PasswordRequired)
    else if |password| < MinPasswordLength then Some(PasswordTooShort)
    else None
  }

  /** The confirmation's final message: a mismatch overrides the required message. */
  function ConfirmError(password: string, confirm: string): Option<string>
  {
    if password != confirm then Some(PasswordMismatch)
    else if confirm == "" then Some(ConfirmRequired)
    else None
  }

  /** The phone's final message: the shape message overrides the required message. */
  function PhoneError(phone: string): Option<string>
  {
    if phone != "" && !IsPhoneNumber(phone) then Some(InvalidPhone)
    else if IsBlank(phone) then Some(PhoneRequired)
    else None
  }

  /**
   * The date of birth's final message. Text that does not parse gives an
   * Invalid Date, whose NaN age fails every comparison: no message.
   */
  function BirthDateError(dob: string, today: Date, parse: DateParser): Option<string>
  {
    if dob == "" then Some(BirthDateRequired)
    else match parse(dob)
      case None => None
      case Some(birth) => if IsUnderage(today, birth) then Some(TooYoung) else None
  }

  /** The error map validateForm builds, stated field by field: the last message written under each key. */
  function ExpectedErrors(f: Fields, today: Date, parse: DateParser): Errors<Field>
    requires ValidatedFields <= f.Keys
  {
    ExpectedSlots(f, today, parse).ToMap()
  }

  function ExpectedSlots(f: Fields, today: Date, parse: DateParser): ErrorSlots
    requires ValidatedFields <= f.Keys
  {
    ErrorSlots(
      TrimmedRequired(f[FirstName], FirstNameRequired),
      TrimmedRequired(f[LastName], LastNameRequired),
      EmailError(f[Email]),
      PasswordError(f[Password]),
      ConfirmError(f[Password], f[ConfirmPassword]),
      PhoneError(f[PhoneNumber]),
      BirthDateError(f[DateOfBirth], today, parse),
      TrimmedRequired(f[LicenseNumber], LicenseRequired))
  }

  /** Every rule of the form holds, stated positively. */
  predicate PassesAllRules(f: Fields, today: Date, parse: DateParser)
    requires ValidatedFields <= f.Keys
  {
    && !IsBlank(f[FirstName])
    && !IsBlank(f[LastName])
    && IsEmailShape(f[Email])
    && |f[Password]| >= MinPasswordLength
    && f[ConfirmPassword] == f[Password]
    && IsPhoneNumber(f[PhoneNumber])
    && f[DateOfBirth] != ""
    && (parse(f[DateOfBirth]).Some? ==> !IsUnderage(today, parse(f[DateOfBirth]).value))
    && !IsBlank(f[LicenseNumber])
  }

  /**
   * The body of validateForm: a fresh object and the checks in source order,
   * each writing its message when it fails, so a later check overwrites an
   * earlier message on the same key. The result has keys only for validated
   * fields and never an empty message.
   */
  method BuildErrors(f: Fields, today: Date, parse: DateParser) returns (newErrors: Errors<Field>)
    requires ValidatedFields <= f.Keys
    ensures newErrors == ExpectedErrors(f, today, parse)
  {
    var firstName, lastName, email, password: Option<string> := None, None, None, None;
    var confirmPassword, phoneNumber, dateOfBirth, licenseNumber: Option<string> := None, None, None, None;
    // Required fields
    if IsBlank(f[FirstName]) { firstName := Some(FirstNameRequired); }
    if IsBlank(f[LastName]) { lastName := Some(LastNameRequired); }
    if IsBlank(f[Email]) { email := Some(EmailRequired); }
    if f[Password] == "" { password := Some(PasswordRequired); }
    if f[ConfirmPassword] == "" { confirmPassword := Some(ConfirmRequired); }
    if IsBlank(f[PhoneNumber]) { phoneNumber := Some(PhoneRequired); }
    if f[DateOfBirth] == "" { dateOfBirth := Some(BirthDateRequired); }
    if IsBlank(f[LicenseNumber]) { licenseNumber := Some(LicenseRequired); }
    assert firstName == TrimmedRequired(f[FirstName], FirstNameRequired);
    assert lastName == TrimmedRequired(f[LastName], LastNameRequired);
    assert licenseNumber == TrimmedRequired(f[LicenseNumber], LicenseRequired);
    // Email shape
    if f[Email] != "" && !IsEmailShape(f[Email]) { email := Some(InvalidEmail); }
    assert email == EmailError(f[Email]);
    // Password length
    if f[Password] != "" && |f[Password]| < MinPasswordLength { password := Some(PasswordTooShort); }
    assert password == PasswordError(f[Password]);
    // Password confirmation
    if f[Password] != f[ConfirmPassword] { confirmPassword := Some(PasswordMismatch); }
    assert confirmPassword == ConfirmError(f[Password], f[ConfirmPassword]);
    // Phone shape, after deleting separators
    if f[PhoneNumber] != "" && !IsPhoneNumber(f[PhoneNumber]) { phoneNumber := Some(InvalidPhone); }
    assert phoneNumber == PhoneError(f[PhoneNumber]);
    // Age
    if f[DateOfBirth] != "" {
      match parse(f[DateOfBirth])
      case None =>
      case Some(birth) =>
        if IsUnderage(today, birth) { dateOfBirth := Some(TooYoung); }
    }
    assert dateOfBirth == BirthDateError(f[DateOfBirth], today, parse);
    var slots := ErrorSlots(firstName, lastName, email, password,
                            confirmPassword, phoneNumber, dateOfBirth, licenseNumber);
    assert slots == ExpectedSlots(f, today, parse);
    newErrors := slots.ToMap();
  }

  /**
   * Whatever the other fields hold, a confirmation that differs from the
   * password always ends with 'Passwords do not match'.
   */
  lemma MismatchAlwaysFlagged(f: Fields, today: Date, parse: DateParser)
    requires ValidatedFields <= f.Keys && f[Password] != f[ConfirmPassword]
    ensures ConfirmPassword in ExpectedErrors(f, today, parse)
    ensures ExpectedErrors(f, today, parse)[ConfirmPassword] == PasswordMismatch
  {
  }

  /** validateForm never writes an empty message: every key it writes shows an error. */
  lemma ExpectedErrorsShown(f: Fields, today: Date, parse: DateParser)
    requires ValidatedFields <= f.Keys
    ensures AllShown(ExpectedErrors(f, today, parse))
  {
    assert ExpectedSlots(f, today, parse).MessagesNonEmpty();
  }

  /** validateForm returns true exactly when every rule of the form holds. */
  lemma ValidIffPassesAllRules(f: Fields, today: Date, parse: DateParser)
    requires ValidatedFields <= f.Keys
    ensures ExpectedErrors(f, today, parse) == map[] <==> PassesAllRules(f, today, parse)
    ensures PassesAllRules(f, today, parse) ==> ExpectedSlots(f, today, parse) == NoErrors
  {
    if IsEmailShape(f[Email]) { EmailShapeNotBlank(f[Email]); }
    if IsPhoneNumber(f[PhoneNumber]) { PhoneNumberNotBlank(f[PhoneNumber]); }
  }


  /** `{}`: no property written. */
  const NoErrors := ErrorSlots(None, None, None, None, None, None, None, None)

  /**
   * A form that passes every rule, with one validated field then emptied,
   * fails on that field alone, with its required message; emptying the
   * password also makes the confirmation differ from it, and an emptied
   * confirmation shows the mismatch rather than the required message.
   */
  lemma BlankingOneField(f: Fields, today: Date, parse: DateParser, k: Field)
    requires ValidatedFields <= f.Keys && PassesAllRules(f, today, parse)
    requires k in ValidatedFields
    ensures ExpectedErrors(f[k := ""], today, parse) ==
      if k == Password then map[Password := PasswordRequired, ConfirmPassword := PasswordMismatch]
      else if k == ConfirmPassword then map[ConfirmPassword := PasswordMismatch]
      else map[k := RequiredMessage(k)]
  {
    ValidIffPassesAllRules(f, today, parse);
    assert IsBlank("");
    match k
    case FirstName => BlankFirstName(f, today, parse);
    case LastName => BlankLastName(f, today, parse);
    case Email => BlankEmail(f, today, parse);
    case Password => BlankPassword(f, today, parse);
    case ConfirmPassword => BlankConfirmPassword(f, today, parse);
    case PhoneNumber => BlankPhoneNumber(f, today, parse);
    case DateOfBirth => BlankDateOfBirth(f, today, parse);
    case LicenseNumber => BlankLicenseNumber(f, today, parse);
  }

  lemma BlankFirstName(f: Fields, today: Date, parse: DateParser)
    requires ValidatedFields <= f.Keys && ExpectedSlots(f, today, parse) == NoErrors && IsBlank("")
    ensures ExpectedErrors(f[FirstName := ""], today, parse) == map[FirstName := FirstNameRequired]
  {
    assert ExpectedSlots(f[FirstName := ""], today, parse) == NoErrors.(firstName := Some(FirstNameRequired));
  }

  lemma BlankLastName(f: Fields, today: Date, parse: DateParser)
    requires ValidatedFields <= f.Keys && ExpectedSlots(f, today, parse) == NoErrors && IsBlank("")
    ensures ExpectedErrors(f[LastName := ""], today, parse) == map[LastName := LastNameRequired]
  {
    assert ExpectedSlots(f[LastName := ""], today, parse) == NoErrors.(lastName := Some(LastNameRequired));
  }

  lemma BlankEmail(f: Fields, today: Date, parse: DateParser)
    requires ValidatedFields <= f.Keys && ExpectedSlots(f, today, parse) == NoErrors && IsBlank("")
    ensures ExpectedErrors(f[Email := ""], today, parse) == map[Email := EmailRequired]
  {
    assert EmailError("") == Some(EmailRequired);
    assert ExpectedSlots(f[Email := ""], today, parse) == NoErrors.(email := Some(EmailRequired));
  }

  lemma BlankPhoneNumber(f: Fields, today: Date, parse: DateParser)
    requires ValidatedFields <= f.Keys && ExpectedSlots(f, today, parse) == NoErrors && IsBlank("")
    ensures ExpectedErrors(f[PhoneNumber := ""], today, parse) == map[PhoneNumber := PhoneRequired]
  {
    assert PhoneError("") == Some(PhoneRequired);
    assert ExpectedSlots(f[PhoneNumber := ""], today, parse) == NoErrors.(phoneNumber := Some(PhoneRequired));
  }

  lemma BlankDateOfBirth(f: Fields, today: Date, parse: DateParser)
    requires ValidatedFields <= f.Keys && ExpectedSlots(f, today, parse) == NoErrors
    ensures ExpectedErrors(f[DateOfBirth := ""], today, parse) == map[DateOfBirth := BirthDateRequired]
  {
    assert ExpectedSlots(f[DateOfBirth := ""], today, parse) == NoErrors.(dateOfBirth := Some(BirthDateRequired));
  }

  lemma BlankLicenseNumber(f: Fields, today: Date, parse: DateParser)
    requires ValidatedFields <= f.Keys && ExpectedSlots(f, today, parse) == NoErrors && IsBlank("")
    ensures ExpectedErrors(f[LicenseNumber := ""], today, parse) == map[LicenseNumber := LicenseRequired]
  {
    assert ExpectedSlots(f[LicenseNumber := ""], today, parse) == NoErrors.(licenseNumber := Some(LicenseRequired));
  }

  lemma BlankPassword(f: Fields, today: Date, parse: DateParser)
    requires ValidatedFields <= f.Keys && ExpectedSlots(f, today, parse) == NoErrors
    ensures ExpectedErrors(f[Password := ""], today, parse) ==
      map[Password := PasswordRequired, ConfirmPassword := PasswordMismatch]
  {
    assert ExpectedSlots(f[Password := ""], today, parse) ==
      NoErrors.(password := Some(PasswordRequired), confirmPassword := Some(PasswordMismatch));
  }

  lemma BlankConfirmPassword(f: Fields, today: Date, parse: DateParser)
    requires ValidatedFields <= f.Keys && ExpectedSlots(f, today, parse) == NoErrors
    ensures ExpectedErrors(f[ConfirmPassword := ""], today, parse) == map[ConfirmPassword := PasswordMismatch]
  {
    assert ExpectedSlots(f[ConfirmPassword := ""], today, parse) == NoErrors.(confirmPassword := Some(PasswordMismatch));
  }

  /**
   * A form that passes every rule, with only the email replaced by text that
   * is not an email (such as "not-an-email"), fails on the email alone.
   */
  lemma OnlyEmailMalformed(f: Fields, today: Date, parse: DateParser, email: string)
    requires ValidatedFields <= f.Keys && PassesAllRules(f, today, parse)
    requires email != "" && !IsEmailShape(email)
    ensures ExpectedErrors(f[Email := email], today, parse) == map[Email := InvalidEmail]
  {
    ValidIffPassesAllRules(f, today, parse);
    assert ExpectedSlots(f, today, parse) == NoErrors;
    assert ExpectedSlots(f[Email := email], today, parse) == NoErrors.(email := Some(InvalidEmail));
  }

  /**
   * A whitespace-only phone number fails the shape check after its
   * separators are deleted, and the shape message overrides the required one.
   */
  lemma WhitespaceOnlyPhone(phone: string)
    requires phone != "" && AllWhitespace(phone)
    ensures PhoneError(phone) == Some(InvalidPhone)
  {
    WhitespaceOnlyRejected(phone);
  }

  /** The message handleSubmit shows once the request settles. */
  function ResultMessage(outcome: Outcome): (r: string)
    ensures StartsWith(r, FailurePrefix) <==> !outcome.Ok?
    ensures outcome.NotOk? ==> r[|FailurePrefix|..] == ServerText(outcome.message, FailureFallback)
  {
    match outcome
    case Ok => assert SuccessMessage[13] != FailurePrefix[13]; SuccessMessage
    case NotOk(message) => FailureMessage(FailurePrefix, message, FailureFallback)
    case Throws => assert NetworkFailure[..|FailurePrefix|] == FailurePrefix; NetworkFailure
  }

  /**
   * validateForm as written: on a parsed birth date whose birthday is still
   * ahead this year, `age--` assigns to a constant and throws a TypeError;
   * otherwise the undecremented age is the intended one and the map is the
   * intended map.
   */
  function ValidateAsWritten(f: Fields, today: Date, parse: DateParser): (r: Completion<Errors<Field>>)
    requires ValidatedFields <= f.Keys
    ensures r.TypeError? <==>
              f[DateOfBirth] != "" && parse(f[DateOfBirth]).Some? && BirthdayAhead(today, parse(f[DateOfBirth]).value)
    ensures r.Normal? ==> r.value == ExpectedErrors(f, today, parse)
  {
    if f[DateOfBirth] != "" && parse(f[DateOfBirth]).Some? then
      var birth := parse(f[DateOfBirth]).value;
      match UnderageAsWritten(today, birth)
      case TypeError => TypeError
      case Normal(underage) =>
        AsWrittenThrowsOrAgrees(today, birth);
        Normal(ExpectedSlots(f, today, parse).(dateOfBirth := if underage then Some(TooYoung) else None).ToMap())
    else
      Normal(ExpectedErrors(f, today, parse))
  }

  /**
   * As written, every well-formed registration by an adult whose birthday is
   * still ahead this year throws instead of being accepted.
   */
  lemma AsWrittenRejectsAdultBeforeBirthday(f: Fields, today: Date, parse: DateParser)
    requires ValidatedFields <= f.Keys && PassesAllRules(f, today, parse)
    requires parse(f[DateOfBirth]).Some? && BirthdayAhead(today, parse(f[DateOfBirth]).value)
    ensures ExpectedErrors(f, today, parse) == map[]
    ensures ValidateAsWritten(f, today, parse) == TypeError
  {
    ValidIffPassesAllRules(f, today, parse);
  }

  /**
   * The component's state: `formData`, `errors`, `isSubmitting` and
   * `submitMessage`. The ghost `requests` lists the bodies sent to the
   * registration endpoint, and `pending` counts the requests not yet settled.
   */
  class RegistrationForm {
    var formData: Fields
    var errors: Errors<Field>
    var isSubmitting: bool
    var submitMessage: string
    ghost var requests: seq<Fields>
    ghost var pending: nat

    /** `formData` always holds the twelve fields. */
    ghost predicate Valid()
      reads this
    {
      formData.Keys == AllFields
    }

    /** The busy flag is raised exactly while a request is outstanding, and there is at most one. */
    ghost predicate BusyWhilePending()
      reads this
    {
      (isSubmitting <==> pending > 0) && pending <= 1
    }

    /** The initial state: every field empty, no errors, idle, no message. */
    constructor()
      ensures formData == EmptyForm && errors == map[]
      ensures !isSubmitting && submitMessage == ""
      ensures requests == [] && pending == 0
      ensures Valid() && BusyWhilePending()
    {
      formData := EmptyForm;
      errors := map[];
      isSubmitting := false;
      submitMessage := "";
      requests := [];
      pending := 0;
    }

    /** handleInputChange: write one field and hide that field's error, if it shows one. */
    method HandleInputChange(name: Field, value: string)
      requires Valid()
      modifies this
      ensures formData == old(formData)[name := value]
      ensures errors == ClearedError(old(errors), name)
      ensures isSubmitting == old(isSubmitting) && submitMessage == old(submitMessage)
      ensures requests == old(requests) && pending == old(pending)
      ensures Valid()
    {
      formData := formData[name := value];
      if HasError(errors, name) {
        errors := errors[name := ""];
      }
    }

    /**
     * validateForm: the error map is replaced by the one built from the
     * current fields, and the result says whether it has no keys, which is
     * exactly when every rule holds.
     */
    method ValidateForm(today: Date, parse: DateParser) returns (valid: bool)
      requires Valid()
      modifies this`errors
      ensures errors == ExpectedErrors(formData, today, parse) && AllShown(errors)
      ensures valid <==> errors == map[]
      ensures valid <==> PassesAllRules(formData, today, parse)
    {
      var newErrors := BuildErrors(formData, today, parse);
      errors := newErrors;
      valid := |errors| == 0;
      ValidIffPassesAllRules(formData, today, parse);
      ExpectedErrorsShown(formData, today, parse);
    }

    /**
     * handleSubmit up to the request: when validation fails nothing else
     * happens; otherwise the form becomes busy, the message is cleared and the
     * current fields are sent.
     */
    method HandleSubmit(today: Date, parse: DateParser) returns (sent: bool)
      requires Valid()
      modifies this
      ensures Valid() && formData == old(formData)
      ensures errors == ExpectedErrors(formData, today, parse)
      ensures sent <==> PassesAllRules(formData, today, parse)
      ensures !sent ==> isSubmitting == old(isSubmitting) && submitMessage == old(submitMessage)
      ensures !sent ==> requests == old(requests) && pending == old(pending)
      ensures sent ==> isSubmitting && submitMessage == ""
      ensures sent ==> requests == old(requests) + [formData] && pending == old(pending) + 1
    {
      sent := ValidateForm(today, parse);
      if !sent {
        return;
      }
      isSubmitting := true;
      submitMessage := "";
      requests := requests + [formData];
      pending := pending + 1;
    }

    /**
     * handleSubmit as written: when `age--` throws inside validateForm, the
     * exception leaves handleSubmit before `setErrors`, so nothing changes and
     * nothing is sent; otherwise it behaves as HandleSubmit.
     */
    method HandleSubmitAsWritten(today: Date, parse: DateParser) returns (r: Completion<bool>)
      requires Valid()
      modifies this
      ensures Valid() && formData == old(formData)
      ensures r.TypeError? <==> ValidateAsWritten(formData, today, parse).TypeError?
      ensures r.TypeError? ==> unchanged(this)
      ensures r.Normal? ==> errors == ExpectedErrors(formData, today, parse)
      ensures r.Normal? ==> (r.value <==> PassesAllRules(formData, today, parse))
      ensures r.Normal? && !r.value ==> isSubmitting == old(isSubmitting) && submitMessage == old(submitMessage)
      ensures r.Normal? && !r.value ==> requests == old(requests) && pending == old(pending)
      ensures r.Normal? && r.value ==> isSubmitting && submitMessage == ""
      ensures r.Normal? && r.value ==> requests == old(requests) + [formData] && pending == old(pending) + 1
    {
      var outcome := ValidateAsWritten(formData, today, parse);
      if outcome.TypeError? {
        return TypeError;
      }
      errors := outcome.value;
      ValidIffPassesAllRules(formData, today, parse);
      if |errors| != 0 {
        return Normal(false);
      }
      isSubmitting := true;
      submitMessage := "";
      requests := requests + [formData];
      pending := pending + 1;
      r := Normal(true);
    }

    /**
     * The rest of handleSubmit, once the oldest outstanding request settles:
     * the message for the outcome, the fields reset on success only, and the
     * busy flag lowered in every case.
     */
    method Settle(outcome: Outcome)
      requires Valid() && pending > 0
      modifies this
      ensures submitMessage == ResultMessage(outcome)
      ensures formData == if outcome.Ok? then EmptyForm else old(formData)
      ensures !isSubmitting && pending == old(pending) - 1
      ensures errors == old(errors) && requests == old(requests)
      ensures Valid()
      ensures old(BusyWhilePending()) ==> BusyWhilePending()
    {
      match outcome {
        case Ok =>
          submitMessage := SuccessMessage;
          formData := EmptyForm;
        case NotOk(message) =>
          submitMessage := FailureMessage(FailurePrefix, message, FailureFallback);
        case Throws =>
          submitMessage := NetworkFailure;
      }
      isSubmitting := false;
      pending := pending - 1;
    }

    /**
     * A click on the submit button, which is disabled while `isSubmitting`:
     * while busy nothing happens; otherwise handleSubmit runs. This is what
     * keeps a second request from being sent while one is outstanding.
     */
    method ClickSubmit(today: Date, parse: DateParser) returns (sent: bool)
      requires Valid() && BusyWhilePending()
      modifies this
      ensures Valid() && BusyWhilePending()
      ensures old(isSubmitting) ==> !sent && unchanged(this)
      ensures formData == old(formData)
      ensures !old(isSubmitting) ==> errors == ExpectedErrors(formData, today, parse)
      ensures !old(isSubmitting) ==> (sent <==> PassesAllRules(formData, today, parse))
      ensures !sent ==> submitMessage == old(submitMessage) && requests == old(requests) && pending == old(pending)
      ensures sent ==> isSubmitting && submitMessage == ""
      ensures sent ==> requests == old(requests) + [formData] && pending == old(pending) + 1
    {
      if isSubmitting {
        return false;
      }
      sent := HandleSubmit(today, parse);
    }
  }
}
