# Car-hire sign-up and sign-in forms, modelled in Dafny

This project models the two user forms of the car-hire front end: the
registration form (`src/user/Registration.jsx`) and the login form
(`src/user/Login.jsx`). Each form keeps four pieces of component state:

- `formData`, the text of every input;
- `errors`, the message shown under each input;
- `isSubmitting`, the busy flag;
- `submitMessage`, the banner shown after a submission.

Each form has three handlers:

- `handleInputChange` writes one field and blanks that field's error;
- `validateForm` runs the form's rules in order into a fresh error object and reports whether it stayed empty;
- `handleSubmit` validates, posts the fields, and settles into one message per outcome.

Modules, one per concern:

- `Wrappers` (wrappers.dfy): `Option`, and `Completion`, a value or a thrown `TypeError`.
- `Text` (text.dfy): the JavaScript whitespace set and `String.prototype.trim`.
- `Email` (email.dfy): the email regular expression `^[^\s@]+@[^\s@]+\.[^\s@]+$` as a character-level check. It is proved equal to a predicate that reads the expression literally.
- `Phone` (phone.dfy): deleting `[\s\-\(\)]` and the phone regular expression `^[\+]?[1-9][\d]{0,15}$`. Both are character-level, and the check is proved equal to the literal reading.
- `Age` (age.dfy): the minimum-age rule on (year, month, day) dates, both as intended and as written.
- `FormCore` (form_core.dfy): what both forms share:
  - the error map and the edit rule;
  - the email rule;
  - the request outcome `Ok | NotOk(message) | Throws`;
  - the `` `prefix${errorData.message || fallback}` `` failure message.
- `Registration` (registration.dfy): the registration rules and the `RegistrationForm` class.
- `Login` (login.dfy): the login rules and the `LoginForm` class.

In each form class, the asynchronous `handleSubmit` is split at its `await`:

- `HandleSubmit` validates. If the form is valid, it raises the busy flag, clears the message and sends the fields.
- `Settle(outcome)` is the rest of the handler, run once the request settles.

Ghost state records what was sent:

- `requests` is the sequence of request bodies.
- `pending` is the number of unsettled requests.

`ClickSubmit` models the submit button, which is `disabled={isSubmitting}`. The predicate `BusyWhilePending` says the flag is up exactly while one request is outstanding. `ClickSubmit` and `Settle` preserve it; `handleSubmit` alone does not check the flag.

The current date and the parsing of the date-of-birth text are parameters:

- `today: Date` stands for the system clock.
- `parse: string -> Option<Date>` stands for `new Date(text)`; `None` stands for an Invalid Date. Its NaN age fails every comparison, so no age message is written.

## Model

| member | source | states |
|---|---|---|
| FormCore.ClearedError | src/user/Registration.jsx:25-39 | After an edit of `name`, every key is still present and `name` shows no error. Every other entry is unchanged, so the errors shown are exactly the old ones minus `name`. |
| FormCore.ClearedErrorNoChange | src/user/Login.jsx:22-27 | Editing a field that shows no error leaves the error map exactly as it was. |
| FormCore.EmailErrorIffShape | src/user/Login.jsx:33-39 | The email ends with no message exactly when it has the shape of an email address. The required check never fires on an accepted email. |
| FormCore.WhitespaceOnlyEmail | src/user/Registration.jsx:47-58 | A whitespace-only email ends with 'Please enter a valid email address', not 'Email is required'. |
| FormCore.EmailError | src/user/Registration.jsx:47-58 | Definition: the email's last message, required on blank text and overwritten by the shape message on non-empty text that is not an email. Stated by `FormCore.EmailErrorIffShape` and `FormCore.WhitespaceOnlyEmail`. |
| FormCore.ServerText | src/user/Registration.jsx:127 | The text after the prefix is either the fallback or exactly what the server sent. A non-empty server message is never replaced. It is never empty while the fallback is not. |
| FormCore.FailureMessage | src/user/Login.jsx:73 | The failure banner starts with the form's prefix. Stated further by `FormCore.FailureMessageDeterminesServerText`. |
| FormCore.FailureMessageDeterminesServerText | src/user/Login.jsx:73 | Two rejections show the same banner exactly when their server texts agree after the fallback rule |
| Text.TrimStartSpec | src/user/Registration.jsx:45 | Trimming the start removes a prefix made only of whitespace and stops at a non-whitespace character. |
| Text.TrimEndSpec | src/user/Registration.jsx:45 | Trimming the end removes a suffix made only of whitespace and stops at a non-whitespace character. |
| Text.Trim | src/user/Registration.jsx:45 | Definition of `.trim()`. Stated by `Text.TrimStartSpec`, `Text.TrimEndSpec` and `Text.TrimIdempotent`. |
| Text.IsBlank | src/user/Registration.jsx:45-52 | Definition of `!value.trim()`. Stated by `Text.BlankIffAllWhitespace`. |
| Text.BlankIffAllWhitespace | src/user/Registration.jsx:45-52 | `!value.trim()` holds exactly when the value consists of whitespace only. This includes the empty value. |
| Text.TrimIdempotent | src/user/Registration.jsx:45 | Trimming a trimmed value changes nothing. |
| Email.IsEmailShape | src/user/Registration.jsx:55-56 | Definition of `emailRegex.test(email)` as a character check. Stated by `Email.EmailShapeMatchesPattern`. |
| Email.EmailShapeMatchesPattern | src/user/Registration.jsx:55-56 | The character-level check accepts exactly the strings of the form L@A.B, where L, A and B are non-empty and contain no whitespace and no '@'. |
| Email.EmailShapeNotBlank | src/user/Registration.jsx:47-58 | An accepted email is non-empty and not blank. |
| Email.NoAtSignRejected | src/user/Registration.jsx:55-57 | A string without '@', such as "not-an-email", is rejected. |
| Email.WhitespaceRejected | src/user/Registration.jsx:55-57 | A string with a whitespace character anywhere is rejected. |
| Phone.StripSeparators | src/user/Registration.jsx:72 | Definition of `replace(/[\s\-\(\)]/g, '')`. Stated by `Phone.StripSeparatorsSpec`, `Phone.StripSeparatorsAppend`, `Phone.StripSeparatorsKeepsClean` and `Phone.StripSeparatorsOnly`. |
| Phone.IsPhoneNumber | src/user/Registration.jsx:71-73 | Definition of the phone test on the raw input. Stated by `Phone.PhoneShapeMatchesPattern`, `Phone.SeparatorsIgnored` and `Phone.WhitespaceOnlyRejected`. |
| Phone.StripSeparatorsSpec | src/user/Registration.jsx:72 | Deleting separators never lengthens the text and leaves no separator. A character survives exactly when it occurs in the input and is not a separator. |
| Phone.StripSeparatorsAppend | src/user/Registration.jsx:72 | Deleting separators works character by character: it distributes over concatenation. |
| Phone.StripSeparatorsKeepsClean | src/user/Registration.jsx:72 | Text without separators is left unchanged. |
| Phone.StripSeparatorsOnly | src/user/Registration.jsx:72 | Text made only of separators becomes "". |
| Phone.PhoneShapeMatchesPattern | src/user/Registration.jsx:71-72 | The character-level check accepts exactly an optional '+', then a digit 1-9, then 0 to 15 digits. |
| Phone.SeparatorsIgnored | src/user/Registration.jsx:71-74 | Inserting separators anywhere into a raw number never changes the verdict. |
| Phone.WhitespaceOnlyRejected | src/user/Registration.jsx:72-74 | Whitespace-only input is never a phone number. |
| Phone.PhoneNumberNotBlank | src/user/Registration.jsx:50-74 | An accepted phone number is non-empty and not blank, so the required check cannot fire on it. |
| Age.BirthdayAhead | src/user/Registration.jsx:81-83 | Definition of the month/day test that decides the decrement. Stated by `Age.AgeOn`. |
| Age.AgeOn | src/user/Registration.jsx:80-84 | The intended age is the number of whole years lived: its anniversary has come on `today` and the next one has not. |
| Age.AgeAtLeastIffAnniversary | src/user/Registration.jsx:80-87 | The age is at least n exactly when the n-th anniversary of the birth date has come. |
| Age.AgeMonotone | src/user/Registration.jsx:80-84 | The age never decreases as `today` advances. |
| Age.UnderageIffEighteenthBirthdayAhead | src/user/Registration.jsx:87-89 | The age message is due exactly when the 18th birthday is still ahead. |
| Age.EighteenthBirthdayBoundary | src/user/Registration.jsx:80-89 | Born exactly 18 years before today passes; born one day later fails. |
| Age.UnderageAsWritten | src/user/Registration.jsx:80-89 | Definition of the age rule as written, with `age--` on a constant throwing. Stated by `Age.AsWrittenThrowsOrAgrees` and `Age.AsWrittenThrowsForAdult`. |
| Age.AsWrittenThrowsOrAgrees | src/user/Registration.jsx:80-84 | As written, the rule throws exactly when this year's birthday is still ahead. Otherwise it agrees with the intended rule. |
| Age.AsWrittenThrowsForAdult | src/user/Registration.jsx:80-84 | On 2026-10-11, a 25-year-old born on 2000-12-01 is not under age, yet the code as written throws. |
| Registration.PasswordError | src/user/Registration.jsx:48-63 | Definition: the password's last message, required when empty, then the length message under 8 characters. Stated by `Registration.ValidIffPassesAllRules` and `Registration.BlankingOneField`. |
| Registration.ConfirmError | src/user/Registration.jsx:49-68 | Definition: the confirmation's last message, required when empty, overwritten by the mismatch message. Stated by `Registration.MismatchAlwaysFlagged` and `Registration.BlankingOneField`. |
| Registration.PhoneError | src/user/Registration.jsx:50-74 | Definition: the phone's last message, required on blank text, overwritten by the phone-shape message. Stated by `Registration.WhitespaceOnlyPhone` and `Registration.ValidIffPassesAllRules`. |
| Registration.BirthDateError | src/user/Registration.jsx:51-90 | Definition: the date's last message, required when empty, overwritten by the age message for a parsed date under 18. Stated by `Registration.ValidIffPassesAllRules` and `Age.UnderageIffEighteenthBirthdayAhead`. |
| Registration.ExpectedSlots | src/user/Registration.jsx:44-90 | Definition: the last message of each property of `newErrors`, field by field. Stated by `Registration.BuildErrors` and `Registration.ExpectedErrorsShown`. |
| Registration.ExpectedErrors | src/user/Registration.jsx:44-93 | Definition: the error object validateForm builds, as a map. Stated by `Registration.BuildErrors`, `Registration.ValidIffPassesAllRules` and `Registration.BlankingOneField`. |
| Registration.PassesAllRules | src/user/Registration.jsx:44-90 | Definition: the rules stated positively, independent of the order of the writes. Stated by `Registration.ValidIffPassesAllRules`. |
| Registration.ErrorSlots.ToMap | src/user/Registration.jsx:92-93 | The error object has no keys exactly when no property was written. If every written message is non-empty, every key shows its error. |
| Registration.BuildErrors | src/user/Registration.jsx:41-90 | The thirteen conditional writes in source order leave exactly the last message written under each key. This is the rule-by-rule map `ExpectedErrors`. |
| Registration.MismatchAlwaysFlagged | src/user/Registration.jsx:66-68 | Whatever the other fields hold, a confirmation that differs from the password ends with 'Passwords do not match'. |
| Registration.ExpectedErrorsShown | src/user/Registration.jsx:44-90 | validateForm never writes an empty message, so every key it writes shows an error. |
| Registration.ValidIffPassesAllRules | src/user/Registration.jsx:41-93 | validateForm returns true exactly when every rule holds (see the list after this table). |
| Registration.BlankingOneField | src/user/Registration.jsx:45-68 | In a form that passes every rule, emptying one validated field gives an error under that field only, with its required message, with two exceptions (see the list after this table). |
| Registration.OnlyEmailMalformed | src/user/Registration.jsx:55-58 | In a form that passes every rule, replacing the email with non-empty text that is not an email gives exactly `{email: 'Please enter a valid email address'}`. |
| Registration.WhitespaceOnlyPhone | src/user/Registration.jsx:50-74 | A whitespace-only phone number ends with 'Please enter a valid phone number', not the required message. |
| Registration.ResultMessage | src/user/Registration.jsx:116-131 | The banner starts with 'Registration failed: ' exactly when the outcome is not `Ok`. For a rejection, what follows the prefix is the server's message or 'Please try again.'. |
| Registration.ValidateAsWritten | src/user/Registration.jsx:77-90 | validateForm as written throws a TypeError exactly when the birth date is non-empty, parses, and this year's birthday is still ahead. Otherwise it runs the as-written `age < 18` on the year difference and yields the intended error map. |
| Registration.AsWrittenRejectsAdultBeforeBirthday | src/user/Registration.jsx:77-101 | Take a form that passes every rule, whose birth date parses and whose birthday this year is still ahead. Its intended error map is empty, but validateForm as written throws. |
| Registration.RegistrationForm.constructor | src/user/Registration.jsx:6-23 | Starts with all twelve fields '', no errors, not busy, no message and nothing sent. |
| Registration.RegistrationForm.HandleInputChange | src/user/Registration.jsx:25-39 | Sets `formData[name]` and leaves the other fields. The error map becomes `ClearedError` of the old one. The flag, the message and the requests are unchanged. |
| Registration.RegistrationForm.ValidateForm | src/user/Registration.jsx:41-94 | Replaces `errors` wholesale with the rule-by-rule map, whose every message is shown. Returns true exactly when that map is empty, which is exactly when every rule holds. |
| Registration.RegistrationForm.HandleSubmit | src/user/Registration.jsx:96-114 | An invalid form leaves the flag and the message unchanged and sends nothing. A valid one sets the flag, clears the message, and sends the current fields as one more request. |
| Registration.RegistrationForm.HandleSubmitAsWritten | src/user/Registration.jsx:96-114 | Runs the as-written validateForm. When `age--` throws, the exception leaves before `setErrors`: no state changes and nothing is sent. Otherwise the errors become the map it built, and an invalid form keeps the flag, the message and the requests. A valid form raises the flag, clears the message and sends the fields once. |
| Registration.RegistrationForm.Settle | src/user/Registration.jsx:116-134 | Shows the outcome's message. It resets all twelve fields on `Ok` only and keeps the errors. It lowers the flag after every outcome. |
| Registration.RegistrationForm.ClickSubmit | src/user/Registration.jsx:327-333 | While busy, the disabled button does nothing. Otherwise it runs handleSubmit. Either way at most one request is outstanding. |
| Login.PasswordError | src/user/Login.jsx:34 | Definition: the required message on an empty password, with no further rule. Stated by `Login.ExpectedErrors` and `Login.LoginValidIff`. |
| Login.ExpectedErrors | src/user/Login.jsx:30-42 | The email has an error exactly when the email rule fails, and the password exactly when it is empty. Every message is shown. |
| Login.BuildErrors | src/user/Login.jsx:30-39 | The three conditional writes in source order leave the map `ExpectedErrors`. The shape message overwrites the required message. |
| Login.LoginValidIff | src/user/Login.jsx:30-43 | The login form is valid exactly when the email has the shape of an email and the password is non-empty. There is no other rule. |
| Login.ShortAddressAccepted | src/user/Login.jsx:33-42 | "a@b.com" with any non-empty password is valid. |
| Login.ResultMessage | src/user/Login.jsx:64-77 | The banner starts with 'Login failed: ' exactly when the outcome is not `Ok`. For a rejection, what follows the prefix is the server's message or 'Invalid credentials.'. |
| Login.LoginForm.constructor | src/user/Login.jsx:6-13 | Starts with both fields '', no errors, not busy, no message, no redirect and nothing sent. |
| Login.LoginForm.HandleInputChange | src/user/Login.jsx:15-28 | Sets the named field only and blanks only that field's error if it was shown. Everything else is unchanged. |
| Login.LoginForm.ValidateForm | src/user/Login.jsx:30-43 | Replaces `errors` wholesale. Returns true exactly when the new map is empty, which is when the email has the shape of an email and a password was typed. |
| Login.LoginForm.HandleSubmit | src/user/Login.jsx:45-62 | An invalid form leaves the flag and the message unchanged and sends nothing. A valid one sets the flag, clears the message and sends the fields. |
| Login.LoginForm.Settle | src/user/Login.jsx:64-80 | Shows the outcome's message and schedules the redirect to '/home' on `Ok` only. It never changes the fields and lowers the flag after every outcome. |
| Login.LoginForm.ClickSubmit | src/user/Login.jsx:124-130 | While busy, the disabled button does nothing. Otherwise it runs handleSubmit. At most one request is outstanding. |

What "every rule holds" means in `Registration.ValidIffPassesAllRules`:

- first name, last name and licence number are not blank;
- the email has the shape of an email;
- the password has at least 8 characters;
- the confirmation equals the password;
- the phone number is valid once separators are deleted;
- the date of birth is not empty, and a parsed date is not under age.

The two exceptions in `Registration.BlankingOneField`:

- an emptied password also gives 'Passwords do not match' under the confirmation;
- an emptied confirmation shows the mismatch message instead of its required message.

## Behaviour of the code worth knowing

- Editing a field does not remove its error. `handleInputChange` sets it to '' and keeps the key (`FormCore.ClearedError`).
- `handleSubmit` itself has no guard against a second submission while one is pending. Only the button's `disabled={isSubmitting}` prevents it (`ClickSubmit`). Calling `HandleSubmit` twice sends two requests. The first `Settle` then lowers the flag while the second request is still pending.
- Emptying one field of a valid form can give two errors: emptying the password also triggers the mismatch on the confirmation (`Registration.BlankingOneField`).

## Left out

- Network: `fetch`, the headers, `JSON.stringify`, `response.json()` and the endpoint URLs. A request is its body (the fields, recorded in `requests`) and its result is an `Outcome`. A body that is not JSON is part of `Throws`.
- Server messages: `errorData.message` is taken to be a string or absent. A non-string truthy value, which JavaScript would turn into text, is not modelled.
- Which request settles: `Settle` does not say which outstanding request it belongs to; `pending` only counts them.
- Login redirect: `setTimeout` and `window.location.href`. A successful login records `redirect == Some("/home")`; the 2000 ms delay and the navigation itself are not modelled.
- Date of birth: `new Date(...)`, time zones and the clock are the parameters `parse` and `today`. The calendar validity of dates is not checked.
- String lengths: JavaScript strings are sequences of UTF-16 code units. The model counts one `char` per character, so the 8-character password rule differs for characters outside the Basic Multilingual Plane.
- Rendering: JSX, CSS classes, the labels, and the `submitMessage.includes('successful')` choice of alert style.
- React: state updates are modelled as immediate, sequential assignments, not as batched asynchronous updates.
- Logging: `console.error` is not modelled.
- Unknown field names: `Field` is an enumeration, so an edit of a name outside a form's fields cannot be expressed. In the code such an edit would add a new key to `formData`, but every rendered input's `name` (src/user/Registration.jsx:156-308, src/user/Login.jsx:101 and 115) is one of the enumerated fields.
- Other files: the route tables `src/App.jsx` and `src/user/App.jsx`, and the `Button` component. Only the button's `disabled` property is modelled, by `ClickSubmit`.

## Findings

| source | as written | input that shows it | evidently intended | confidence | as-written member | corrected member |
|---|---|---|---|---|---|---|
| src/user/Registration.jsx:80-84 | `const age = ...` followed by `age--` when the birthday is still ahead this year. Assigning to a constant throws a TypeError. `validateForm` runs outside the `try` (line 99), so the submission leaves the earlier errors and message as they were, and sends nothing. | today 2026-10-11, date of birth 2000-12-01 (age 25), every other field valid | the age is one less than the year difference, 25 >= 18, and the form is submitted | not executed | Age.AsWrittenThrowsForAdult | Age.AgeOn |
