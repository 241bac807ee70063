/** The account creation form (src/components/SignUpModal.tsx): name, e-mail
    and password, the three validation rules, and the submission that sends
    the trimmed name and e-mail to `signUp`. */
module SignUp {
  import opened Wrappers
  import opened Strings
  import opened EmailPattern
  import opened Forms

  datatype Field = Name | Email | Password

  datatype FormData = FormData(name: string, email: string, password: string)

  /** The argument of `signUp`. */
  datatype SignUpData = SignUpData(email: string, password: string, name: string)

  const NameRequired: string := "Name is required"
  const PasswordRequired: string := "Password is required"
  const PasswordTooShort: string := "Password must be at least 6 characters"
  const SignUpFallback: string := "Failed to create account. Please try again."
  /** Passwords shorter than this many UTF-16 code units are refused. */
  const MinPasswordLength: nat := 6

  const EmptyForm: FormData := FormData([], [], [])

  /** The message `validateForm` records for one field, if any. */
  function ErrorFor(form: FormData, f: Field): Option<string> {
    match f
    case Name => if IsBlank(form.name) then Some(NameRequired) else None
    case Email => EmailRule(form.email)
    case Password =>
      if form.password == [] then Some(PasswordRequired)
      else if Utf16Length(form.password) < MinPasswordLength then Some(PasswordTooShort)
      else None
  }

  /** `errors` holds exactly the messages the rules give for `form`. */
  ghost predicate Reports(errors: map<Field, string>, form: FormData) {
    forall f :: (f in errors <==> ErrorFor(form, f).Some?) && (f in errors ==> errors[f] == ErrorFor(form, f).value)
  }

  /** The form the rules accept: a name that is not blank, an e-mail matching
      the pattern as typed, and a password of at least six code units. */
  ghost predicate FormValid(form: FormData) {
    !IsBlank(form.name) && MatchesEmailRegex(form.email) && Utf16Length(form.password) >= MinPasswordLength
  }

  /** The password rule: an empty password is "required", a short one "too
      short", and exactly six code units are enough. */
  lemma PasswordRule(form: FormData)
    ensures ErrorFor(form, Password) == Some(PasswordRequired) <==> form.password == []
    ensures ErrorFor(form, Password) == Some(PasswordTooShort) <==>
      form.password != [] && Utf16Length(form.password) < MinPasswordLength
    ensures ErrorFor(form, Password).None? <==> Utf16Length(form.password) >= MinPasswordLength
  {
    assert PasswordRequired[9] != PasswordTooShort[9];
  }

  /** No rule fires exactly when the form is valid. */
  lemma FormValidIsNoRuleFiring(form: FormData)
    ensures FormValid(form) <==> forall f :: ErrorFor(form, f).None?
  {
    PasswordRule(form);
    if !FormValid(form) {
      if IsBlank(form.name) {
        assert ErrorFor(form, Name).Some?;
      } else if !MatchesEmailRegex(form.email) {
        assert ErrorFor(form, Email).Some?;
      } else {
        assert ErrorFor(form, Password).Some?;
      }
    }
  }

  /** A complete report is empty exactly when the form is valid. */
  lemma NothingReportedIffValid(m: map<Field, string>, form: FormData)
    requires Reports(m, form)
    ensures m == map[] <==> FormValid(form)
  {
    FormValidIsNoRuleFiring(form);
    if m != map[] {
      var f :| f in m;
    }
  }

  /** What `handleSubmit` sends: e-mail and name trimmed, the password as typed. */
  function Payload(form: FormData): SignUpData {
    SignUpData(Trim(form.email), form.password, Trim(form.name))
  }

  /** A valid form sends the e-mail exactly as typed, a name with no white
      space at either end, and the password untouched. */
  lemma ValidPayload(form: FormData)
    requires FormValid(form)
    ensures var d := Payload(form);
      && d.email == form.email && MatchesEmailRegex(d.email)
      && d.name != [] && !IsSpace(d.name[0]) && !IsSpace(d.name[|d.name| - 1])
      && d.password == form.password && Utf16Length(d.password) >= MinPasswordLength
  {
    EmailTestIsRegex(form.email);
    EmailIsTrimmed(form.email);
  }

  class SignUpModal {
    var formData: FormData
    var errors: map<Field, string>
    var isSubmitting: bool

    constructor ()
      ensures formData == EmptyForm && errors == map[] && !isSubmitting
    {
      formData := EmptyForm;
      errors := map[];
      isSubmitting := false;
    }

    /** `handleInputChange`: store the typed value and clear that field's message. */
    method HandleInputChange(f: Field, value: string)
      modifies this`formData, this`errors
      ensures formData == match f
        case Name => old(formData).(name := value)
        case Email => old(formData).(email := value)
        case Password => old(formData).(password := value)
      ensures errors == ClearError(old(errors), f)
    {
      match f {
        case Name => formData := formData.(name := value);
        case Email => formData := formData.(email := value);
        case Password => formData := formData.(password := value);
      }
      errors := ClearError(errors, f);
    }

    /** `validateForm`: record a message for every failing rule and report
        whether there were none. */
    method ValidateForm() returns (valid: bool)
      modifies this`errors
      ensures Reports(errors, formData)
      ensures valid <==> errors == map[]
      ensures valid <==> FormValid(formData)
    {
      var newErrors: map<Field, string> := map[];
      if IsBlank(formData.name) {
        newErrors := newErrors[Name := NameRequired];
      }
      if IsBlank(formData.email) {
        newErrors := newErrors[Email := EmailRequired];
      } else if !IsEmail(formData.email) {
        newErrors := newErrors[Email := InvalidEmail];
      }
      if formData.password == [] {
        newErrors := newErrors[Password := PasswordRequired];
      } else if Utf16Length(formData.password) < MinPasswordLength {
        newErrors := newErrors[Password := PasswordTooShort];
      }
      assert Reports(newErrors, formData);
      NothingReportedIffValid(newErrors, formData);
      errors := newErrors;
      valid := |newErrors| == 0;
    }

    /** `handleSubmit`: validate, then call `signUp` with the trimmed name and
        e-mail; a success empties the form, a failure shows its message on the
        e-mail field and keeps what was typed. `reply` is what `signUp` answers. */
    method HandleSubmit(reply: AuthReply) returns (sent: Option<SignUpData>)
      modifies this`formData, this`errors, this`isSubmitting
      ensures !FormValid(old(formData)) ==>
        && sent.None? && formData == old(formData) && Reports(errors, old(formData))
        && isSubmitting == old(isSubmitting)
      ensures FormValid(old(formData)) ==> sent == Some(Payload(old(formData))) && !isSubmitting
      ensures FormValid(old(formData)) && reply.Answered? && reply.success ==>
        formData == EmptyForm && errors == map[]
      ensures FormValid(old(formData)) && !(reply.Answered? && reply.success) ==>
        formData == old(formData) && errors == map[Email := FailureText(reply, SignUpFallback)]
    {
      var valid := ValidateForm();
      if !valid {
        sent := None;
        return;
      }
      isSubmitting := true;
      sent := Some(Payload(formData));
      if reply.Answered? && reply.success {
        formData := EmptyForm;
        errors := map[];
      } else {
        errors := map[Email := FailureText(reply, SignUpFallback)];
      }
      isSubmitting := false;
    }
  }
}
