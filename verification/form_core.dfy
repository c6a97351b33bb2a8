/**
 * What the registration and login forms share: the error map, the edit rule
 * of `handleInputChange`, the email rule of `validateForm`, the outcome of the
 * network request, and the failure message built from a server reply.
 */
module FormCore {
  import opened Wrappers
  import opened Text
  import opened Email

  // Messages both forms write for the email and password inputs.
  const EmailRequired := "Email is required"
  const PasswordRequired := "Password is required"
  const InvalidEmail := "Please enter a valid email address"

  /**
   * The email's final message in both forms: required on the trimmed value,
   * then overwritten by the shape message whenever the raw value is not empty
   * and not an email.
   */
  function EmailError(email: string): Option<string>
  {
    if email != "" && !IsEmailShape(email) then Some(InvalidEmail)
    else if IsBlank(email) then Some(EmailRequired)
    else None
  }

  /** The email passes exactly when it has the shape of an email address. */
  lemma EmailErrorIffShape(email: string)
    ensures EmailError(email).None? <==> IsEmailShape(email)
  {
    if IsEmailShape(email) { EmailShapeNotBlank(email); }
  }

  /** A whitespace-only email shows the shape message, not the required message. */
  lemma WhitespaceOnlyEmail(email: string)
    requires email != "" && AllWhitespace(email)
    ensures EmailError(email) == Some(InvalidEmail)
  {
    WhitespaceRejected(email, 0);
  }

  /** `errors`: field to its message; an absent key or "" means no error is shown. */
  type Errors<K> = map<K, string>

  /** Every key of the map holds a message that is shown. */
  predicate AllShown<K>(errors: Errors<K>)
  {
    forall k :: k in errors ==> errors[k] != ""
  }

  /** `errors[name]` is truthy: the key is present and its message is not "". */
  predicate HasError<K>(errors: Errors<K>, name: K)
  {
    name in errors && errors[name] != ""
  }

  /**
   * The error map after `name` is edited: if that field showed an error, its
   * message becomes "" while the key stays; nothing else changes.
   */
  function ClearedError<K(!new)>(errors: Errors<K>, name: K): (r: Errors<K>)
    ensures r.Keys == errors.Keys
    ensures !HasError(r, name)
    ensures forall k :: k in errors && k != name ==> r[k] == errors[k]
    ensures forall k :: HasError(r, k) <==> HasError(errors, k) && k != name
  {
    if HasError(errors, name) then errors[name := ""] else errors
  }

  /** Editing a field with no visible error leaves the error map exactly as it was. */
  lemma ClearedErrorNoChange<K(!new)>(errors: Errors<K>, name: K)
    requires !HasError(errors, name)
    ensures ClearedError(errors, name) == errors
  {
  }

  /** `m` with the message `o` written under `k`, when there is one. */
  function Put<K>(m: Errors<K>, k: K, o: Option<string>): (r: Errors<K>)
    ensures o.Some? ==> k in r
    ensures AllShown(m) && (o.Some? ==> o.value != "") ==> AllShown(r)
  {
    if o.Some? then m[k := o.value] else m
  }

  /**
   * How the request made by `handleSubmit` settles: `response.ok` with a JSON
   * body; a non-ok response whose JSON body may carry a `message`; or an
   * exception (no response, or a body that is not JSON).
   */
  datatype Outcome = Ok | NotOk(message: Option<string>) | Throws

  /**
   * `errorData.message || fallback`: the banner reports only what the server
   * sent or the fallback, never replaces a non-empty server message, and is
   * never empty while the fallback is not.
   */
  function ServerText(message: Option<string>, fallback: string): (text: string)
    ensures text == fallback || message == Some(text)
    ensures message.Some? && message.value != "" ==> text == message.value
    ensures fallback != "" ==> text != ""
  {
    match message
    case Some(m) => if m != "" then m else fallback
    case None => fallback
  }

  /** `` `${prefix}${errorData.message || fallback}` ``: the prefix, then the server's text. */
  function FailureMessage(prefix: string, message: Option<string>, fallback: string): (r: string)
    ensures |r| >= |prefix| && r[..|prefix|] == prefix
    ensures r[|prefix|..] == ServerText(message, fallback)
  {
    prefix + ServerText(message, fallback)
  }

  /**
   * A failure banner determines the server text: two rejections show the same
   * banner exactly when they carry the same text after the fallback rule.
   */
  lemma FailureMessageDeterminesServerText(prefix: string, m1: Option<string>, m2: Option<string>, fallback: string)
    ensures FailureMessage(prefix, m1, fallback) == FailureMessage(prefix, m2, fallback)
            <==> ServerText(m1, fallback) == ServerText(m2, fallback)
  {
    var r1, r2 := FailureMessage(prefix, m1, fallback), FailureMessage(prefix, m2, fallback);
    if r1 == r2 {
      assert r1[|prefix|..] == r2[|prefix|..];
    }
  }

  /** `s` begins with `prefix`. */
  predicate StartsWith(s: string, prefix: string)
  {
    |prefix| <= |s| && s[..|prefix|] == prefix
  }
}
