/**
 * The login form (src/user/Login.jsx): two text fields, the two rules of its
 * `validateForm`, and the `handleInputChange` and `handleSubmit` handlers over
 * the same four state variables as the registration form. A successful login
 * schedules navigation to the home page instead of clearing the fields.
 */
module Login {
  import opened Wrappers
  import opened Text
  import opened Email
  import opened FormCore

  /** The inputs of the form, one per key of `formData`. */
  datatype Field = Email | Password

  /** `formData`: the text of both inputs. */
  type Fields = map<Field, string>

  const AllFields: set<Field> := {Email, Password}

  /** Both fields empty: the initial state. */
  const EmptyForm: Fields := map[Email := "", Password := ""]

  // Messages written by handleSubmit.
  const SuccessMessage := "Login successful! Redirecting..."
  const FailurePrefix := "Login failed: "
  const FailureFallback := "Invalid credentials."
  const NetworkFailure := "Login failed: Network error. Please try again."

  /** Where the page goes, two seconds after a successful login. */
  const HomePath := "/home"

  /** The password's final message: required on its raw value, with no further rule. */
  function PasswordError(password: string): Option<string>
  {
    if password == "" then Some(PasswordRequired) else None
  }

  /** The error map validateForm builds: one key per failing field, under its last message. */
  function ExpectedErrors(f: Fields): (e: Errors<Field>)
    requires AllFields <= f.Keys
    ensures Email in e <==> EmailError(f[Email]).Some?
    ensures Password in e <==> f[Password] == ""
    ensures AllShown(e)
  {
    Put(Put(map[], Email, EmailError(f[Email])), Password, PasswordError(f[Password]))
  }

  /**
   * The body of validateForm: a fresh object and the checks in source order,
   * the email's shape check last, so that its message overwrites the required
   * message.
   */
  method BuildErrors(f: Fields) returns (newErrors: Errors<Field>)
    requires AllFields <= f.Keys
    ensures newErrors == ExpectedErrors(f)
  {
    var email, password: Option<string> := None, None;
    if IsBlank(f[Email]) { email := Some(EmailRequired); }
    if f[Password] == "" { password := Some(PasswordRequired); }
    if f[Email] != "" && !IsEmailShape(f[Email]) { email := Some(InvalidEmail); }
    assert email == EmailError(f[Email]);
    newErrors := Put(Put(map[], Email, email), Password, password);
  }

  /**
   * The login form is valid exactly when the email has the shape of an email
   * address and a password was typed; there is no length, confirmation,
   * phone or age rule.
   */
  lemma LoginValidIff(f: Fields)
    requires AllFields <= f.Keys
    ensures ExpectedErrors(f) == map[] <==> IsEmailShape(f[Email]) && f[Password] != ""
  {
    EmailErrorIffShape(f[Email]);
    var e := ExpectedErrors(f);
    if IsEmailShape(f[Email]) && f[Password] != "" {
      assert e.Keys == {};
    }
  }

  /** "a@b.com" with any non-empty password is accepted. */
  lemma ShortAddressAccepted(password: string)
    requires password != ""
    ensures ExpectedErrors(map[Email := "a@b.com", Password := password]) == map[]
  {
    var s := "a@b.com";
    assert s[1] == '@' && s[3] == '.';
    assert IsSegment(s[..1]) && IsSegment(s[1 + 1..3]) && IsSegment(s[3 + 1..]);
    assert MatchesEmailPattern(s);
    PatternImpliesShape(s);
    LoginValidIff(map[Email := s, Password := password]);
  }

  /** The message handleSubmit shows once the request settles. */
  function ResultMessage(outcome: Outcome): (r: string)
    ensures StartsWith(r, FailurePrefix) <==> !outcome.Ok?
    ensures outcome.NotOk? ==> r[|FailurePrefix|..] == ServerText(outcome.message, FailureFallback)
  {
    match outcome
    case Ok => assert SuccessMessage[6] != FailurePrefix[6]; SuccessMessage
    case NotOk(message) => FailureMessage(FailurePrefix, message, FailureFallback)
    case Throws => assert NetworkFailure[..|FailurePrefix|] == FailurePrefix; NetworkFailure
  }

  /**
   * The component's state. `redirect` records the navigation that a
   * successful login schedules; the ghost `requests` lists the bodies sent to
   * the login endpoint and `pending` counts the requests not yet settled.
   */
  class LoginForm {
    var formData: Fields
    var errors: Errors<Field>
    var isSubmitting: bool
    var submitMessage: string
    var redirect: Option<string>
    ghost var requests: seq<Fields>
    ghost var pending: nat

    /** `formData` always holds both fields. */
    ghost predicate Valid()
      reads this
    {
      formData.Keys == AllFields
    }

    /** The busy flag is raised exactly while a request is outstanding, and there is at most one. */
    ghost predicate BusyWhilePending()
      reads this
    {
      (isSubmitting <==> pending > 0) && pending <= 1
    }

    /** The initial state: both fields empty, no errors, idle, no message, nothing scheduled. */
    constructor()
      ensures formData == EmptyForm && errors == map[]
      ensures !isSubmitting && submitMessage == "" && redirect == None
      ensures requests == [] && pending == 0
      ensures Valid() && BusyWhilePending()
    {
      formData := EmptyForm;
      errors := map[];
      isSubmitting := false;
      submitMessage := "";
      redirect := None;
      requests := [];
      pending := 0;
    }

    /** handleInputChange: write one field and hide that field's error, if it shows one. */
    method HandleInputChange(name: Field, value: string)
      requires Valid()
      modifies this
      ensures formData == old(formData)[name := value]
      ensures errors == ClearedError(old(errors), name)
      ensures isSubmitting == old(isSubmitting) && submitMessage == old(submitMessage)
      ensures redirect == old(redirect) && requests == old(requests) && pending == old(pending)
      ensures Valid()
    {
      formData := formData[name := value];
      if HasError(errors, name) {
        errors := errors[name := ""];
      }
    }

    /**
     * validateForm: the error map is replaced by the one built from the
     * current fields, and the result says whether it has no keys.
     */
    method ValidateForm() returns (valid: bool)
      requires Valid()
      modifies this`errors
      ensures errors == ExpectedErrors(formData) && AllShown(errors)
      ensures valid <==> errors == map[]
      ensures valid <==> IsEmailShape(formData[Email]) && formData[Password] != ""
    {
      var newErrors := BuildErrors(formData);
      errors := newErrors;
      valid := |errors| == 0;
      LoginValidIff(formData);
    }

    /**
     * handleSubmit up to the request: when validation fails nothing else
     * happens; otherwise the form becomes busy, the message is cleared and the
     * current fields are sent.
     */
    method HandleSubmit() returns (sent: bool)
      requires Valid()
      modifies this
      ensures Valid() && formData == old(formData) && redirect == old(redirect)
      ensures errors == ExpectedErrors(formData)
      ensures sent <==> IsEmailShape(formData[Email]) && formData[Password] != ""
      ensures !sent ==> isSubmitting == old(isSubmitting) && submitMessage == old(submitMessage)
      ensures !sent ==> requests == old(requests) && pending == old(pending)
      ensures sent ==> isSubmitting && submitMessage == ""
      ensures sent ==> requests == old(requests) + [formData] && pending == old(pending) + 1
    {
      sent := ValidateForm();
      if !sent {
        return;
      }
      isSubmitting := true;
      submitMessage := "";
      requests := requests + [formData];
      pending := pending + 1;
    }

    /**
     * The rest of handleSubmit, once the oldest outstanding request settles:
     * the message for the outcome, the redirect scheduled on success only, the
     * fields kept in every case, and the busy flag lowered in every case.
     */
    method Settle(outcome: Outcome)
      requires Valid() && pending > 0
      modifies this
      ensures submitMessage == ResultMessage(outcome)
      ensures redirect == if outcome.Ok? then Some(HomePath) else old(redirect)
      ensures !isSubmitting && pending == old(pending) - 1
      ensures formData == old(formData) && errors == old(errors) && requests == old(requests)
      ensures Valid()
      ensures old(BusyWhilePending()) ==> BusyWhilePending()
    {
      match outcome {
        case Ok =>
          submitMessage := SuccessMessage;
          redirect := Some(HomePath);
        case NotOk(message) =>
          submitMessage := FailureMessage(FailurePrefix, message, FailureFallback);
        case Throws =>
          submitMessage := NetworkFailure;
      }
      isSubmitting := false;
      pending := pending - 1;
    }

    /**
     * A click on the submit button, which is disabled while `isSubmitting`:
     * while busy nothing happens; otherwise handleSubmit runs.
     */
    method ClickSubmit() returns (sent: bool)
      requires Valid() && BusyWhilePending()
      modifies this
      ensures Valid() && BusyWhilePending()
      ensures old(isSubmitting) ==> !sent && unchanged(this)
      ensures formData == old(formData) && redirect == old(redirect)
      ensures !old(isSubmitting) ==> errors == ExpectedErrors(formData)
      ensures !old(isSubmitting) ==> (sent <==> IsEmailShape(formData[Email]) && formData[Password] != "")
      ensures !sent ==> submitMessage == old(submitMessage) && requests == old(requests) && pending == old(pending)
      ensures sent ==> isSubmitting && submitMessage == ""
      ensures sent ==> requests == old(requests) + [formData] && pending == old(pending) + 1
    {
      if isSubmitting {
        return false;
      }
      sent := HandleSubmit();
    }
  }
}
