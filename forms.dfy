/** What the three form components share: per-field error messages kept in
    a `Partial<FormData>` object, cleared field by field while the user types,
    the e-mail rule of the two account forms, and the answer of the sign-up
    and sign-in calls. */
module Forms {
  import opened Wrappers
  import opened Types
  import opened Strings
  import opened EmailPattern

  const EmailRequired: string := "Email is required"
  const InvalidEmail: string := "Please enter a valid email address"

  /** `if (errors[name]) setErrors({ ...prev, [name]: '' })`: a recorded,
      non-empty message for `k` becomes the empty string; nothing else changes. */
  function ClearError<K>(errors: map<K, string>, k: K): (r: map<K, string>)
    ensures r.Keys == errors.Keys
    ensures k in r ==> r[k] == []
    ensures forall j :: j in errors && j != k ==> r[j] == errors[j]
  {
    if k in errors && errors[k] != [] then errors[k := []] else errors
  }

  /** The e-mail rule of the sign-up and sign-in forms: blank after trimming
      means required; otherwise the value as typed, untrimmed, must match
      `^[^\s@]+@[^\s@]+\.[^\s@]+$`. At most one message results. */
  function EmailRule(email: string): (r: Option<string>)
    ensures r == Some(EmailRequired) <==> IsBlank(email)
    ensures r == Some(InvalidEmail) <==> !IsBlank(email) && !MatchesEmailRegex(email)
    ensures r.None? <==> MatchesEmailRegex(email)
  {
    EmailTestIsRegex(email);
    EmailIsNotBlank(email);
    assert EmailRequired[0] != InvalidEmail[0];
    if IsBlank(email) then Some(EmailRequired)
    else if !IsEmail(email) then Some(InvalidEmail)
    else None
  }

  /** What `signUp` and `signIn` hand back: a `{ success, error? }` result.
      They catch every exception themselves and answer it as a failed result;
      `Threw` stands for the forms' own defensive `catch`, which they never
      reach. */
  datatype AuthReply = Answered(success: bool, error: Option<string>) | Threw(thrown: Thrown)

  /** The message a failed attempt shows on the e-mail field:
      `result.error || fallback`, or the thrown error's message. */
  function FailureText(reply: AuthReply, fallback: string): (text: string)
    requires !(reply.Answered? && reply.success)
    ensures reply.Answered? && reply.error.Some? && reply.error.value != [] ==> text == reply.error.value
    ensures reply.Answered? && (reply.error.None? || reply.error.value == []) ==> text == fallback
    ensures reply.Threw? && reply.thrown.ErrorInstance? ==> text == reply.thrown.message
    ensures reply.Threw? && reply.thrown.NonError? ==> text == fallback
  {
    match reply
    case Answered(_, error) =>
      if error.Some? && error.value != [] then error.value else fallback
    case Threw(t) =>
      if t.ErrorInstance? then t.message else fallback
  }
}
