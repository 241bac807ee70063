/** The sign-in form (src/components/SignInModal.tsx): e-mail and password,
    the two validation rules, and the submission that sends the trimmed
    e-mail to `signIn`. */
module SignIn {
  import opened Wrappers
  import opened Strings
  import opened EmailPattern
  import opened Forms

  datatype Field = Email | Password

  datatype FormData = FormData(email: string, password: string)

  /** The argument of `signIn`. */
  datatype SignInData = SignInData(email: string, password: string)

  const PasswordRequired: string := "Password is required"
  const SignInFallback: string := "Invalid email or password. Please try again."

  const EmptyForm: FormData := FormData([], [])

  /** The message `validateForm` records for one field, if any: the e-mail
      rule of sign-up, and a password that only has to be non-empty. */
  function ErrorFor(form: FormData, f: Field): Option<string> {
    match f
    case Email => EmailRule(form.email)
    case Password => if form.password == [] then Some(PasswordRequired) else None
  }

  /** `errors` holds exactly the messages the rules give for `form`. */
  ghost predicate Reports(errors: map<Field, string>, form: FormData) {
    forall f :: (f in errors <==> ErrorFor(form, f).Some?) && (f in errors ==> errors[f] == ErrorFor(form, f).value)
  }

  /** The form the rules accept: an e-mail matching the pattern as typed and
      any non-empty password, however short. */
  ghost predicate FormValid(form: FormData) {
    MatchesEmailRegex(form.email) && form.password != []
  }

  /** No rule fires exactly when the form is valid. */
  lemma FormValidIsNoRuleFiring(form: FormData)
    ensures FormValid(form) <==> forall f :: ErrorFor(form, f).None?
  {
    if !FormValid(form) {
      if !MatchesEmailRegex(form.email) {
        assert ErrorFor(form, Email).Some?;
      } else {
        assert ErrorFor(form, Password).Some?;
      }
    }
  }

  /** A complete report is empty exactly when the form is valid. */
  lemma NothingReportedIffValid(m: map<Field, string>, form: FormData)
    requires Reports(m, form)
    ensures m == map[] <==> FormValid(form)
  {
    FormValidIsNoRuleFiring(form);
    if m != map[] {
      var f :| f in m;
    }
  }

  /** What `handleSubmit` sends: the e-mail trimmed, the password as typed. */
  function Payload(form: FormData): SignInData {
    SignInData(Trim(form.email), form.password)
  }

  /** A valid form sends the e-mail exactly as typed and the password untouched. */
  lemma ValidPayload(form: FormData)
    requires FormValid(form)
    ensures Payload(form) == SignInData(form.email, form.password)
    ensures MatchesEmailRegex(Payload(form).email) && Payload(form).password != []
  {
    EmailTestIsRegex(form.email);
    EmailIsTrimmed(form.email);
  }

  class SignInModal {
    var formData: FormData
    var errors: map<Field, string>
    var isSubmitting: bool

    constructor ()
      ensures formData == EmptyForm && errors == map[] && !isSubmitting
    {
      formData := EmptyForm;
      errors := map[];
      isSubmitting := false;
    }

    /** `handleInputChange`: store the typed value and clear that field's message. */
    method HandleInputChange(f: Field, value: string)
      modifies this`formData, this`errors
      ensures formData == match f
        case Email => old(formData).(email := value)
        case Password => old(formData).(password := value)
      ensures errors == ClearError(old(errors), f)
    {
      match f {
        case Email => formData := formData.(email := value);
        case Password => formData := formData.(password := value);
      }
      errors := ClearError(errors, f);
    }

    /** `validateForm`: record a message for every failing rule and report
        whether there were none. */
    method ValidateForm() returns (valid: bool)
      modifies this`errors
      ensures Reports(errors, formData)
      ensures valid <==> errors == map[]
      ensures valid <==> FormValid(formData)
    {
      var newErrors: map<Field, string> := map[];
      if IsBlank(formData.email) {
        newErrors := newErrors[Email := EmailRequired];
      } else if !IsEmail(formData.email) {
        newErrors := newErrors[Email := InvalidEmail];
      }
      if formData.password == [] {
        newErrors := newErrors[Password := PasswordRequired];
      }
      assert Reports(newErrors, formData);
      NothingReportedIffValid(newErrors, formData);
      errors := newErrors;
      valid := |newErrors| == 0;
    }

    /** `handleSubmit`: validate, then call `signIn` with the trimmed e-mail; a
        success empties the form, a failure shows its message on the e-mail
        field and keeps what was typed. `reply` is what `signIn` answers. */
    method HandleSubmit(reply: AuthReply) returns (sent: Option<SignInData>)
      modifies this`formData, this`errors, this`isSubmitting
      ensures !FormValid(old(formData)) ==>
        && sent.None? && formData == old(formData) && Reports(errors, old(formData))
        && isSubmitting == old(isSubmitting)
      ensures FormValid(old(formData)) ==> sent == Some(Payload(old(formData))) && !isSubmitting
      ensures FormValid(old(formData)) && reply.Answered? && reply.success ==>
        formData == EmptyForm && errors == map[]
      ensures FormValid(old(formData)) && !(reply.Answered? && reply.success) ==>
        formData == old(formData) && errors == map[Email := FailureText(reply, SignInFallback)]
    {
      var valid := ValidateForm();
      if !valid {
        sent := None;
        return;
      }
      isSubmitting := true;
      sent := Some(Payload(formData));
      if reply.Answered? && reply.success {
        formData := EmptyForm;
        errors := map[];
      } else {
        errors := map[Email := FailureText(reply, SignInFallback)];
      }
      isSubmitting := false;
    }
  }
}
