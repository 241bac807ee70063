/** The event creation form (src/components/AddEventModal.tsx): its field
    state, the per-field validation, the image check, and the submission that
    hands the trimmed payload to `createEvent`. */
module AddEvent {
  import opened Wrappers
  import opened Types
  import opened Strings
  import opened EmailPattern
  import opened Platform
  import opened Forms
  import EventService

  datatype Field = Title | Date | Time | Venue | Description | Organizer | Category | Phone | Email | Image

  datatype FormData = FormData(
    title: string,
    date: string,
    time: string,
    venue: string,
    description: string,
    organizer: string,
    category: string,
    phone: string,
    email: string,
    image: Option<ImageFile>)

  const DefaultOrganizer: string := "ShowGo Events"
  const DefaultEmail: string := "info@showgo.com"
  const DefaultPhone: string := "(123) 456-7890"

  const TitleRequired: string := "Title is required"
  const DateRequired: string := "Date is required"
  const TimeRequired: string := "Time is required"
  const VenueRequired: string := "Venue is required"
  const DescriptionRequired: string := "Description is required"
  const CategoryRequired: string := "Category is required"
  const ImageRequired: string := "Event image is required"
  const InvalidImageType: string := "Please select a valid image file (JPEG, PNG, GIF, or WebP)"
  const ImageTooLarge: string := "Image size must be less than 5MB"

  const ValidImageTypes: seq<string> := ["image/jpeg", "image/jpg", "image/png", "image/gif", "image/webp"]
  /** 5 MiB in bytes. */
  const MaxImageSize: nat := 5 * 1024 * 1024

  /** The empty form, with the organizer and e-mail defaults filled in. */
  function InitialForm(organizer: string, email: string): FormData {
    FormData([], [], [], [], [], organizer, [], DefaultPhone, email, None)
  }

  /** The message `validateForm` records for one field, if any: title, venue
      and description must be non-blank, date, time and category non-empty as
      typed, the image present, and a non-empty e-mail well formed; organizer
      and phone are never checked. */
  function ErrorFor(form: FormData, f: Field): Option<string> {
    match f
    case Title => if IsBlank(form.title) then Some(TitleRequired) else None
    case Date => if form.date == [] then Some(DateRequired) else None
    case Time => if form.time == [] then Some(TimeRequired) else None
    case Venue => if IsBlank(form.venue) then Some(VenueRequired) else None
    case Description => if IsBlank(form.description) then Some(DescriptionRequired) else None
    case Category => if form.category == [] then Some(CategoryRequired) else None
    case Image => if form.image.None? then Some(ImageRequired) else None
    case Email => if form.email != [] && !IsEmail(form.email) then Some(InvalidEmail) else None
    case Organizer => None
    case Phone => None
  }

  /** No rule fires, field by field. */
  predicate FormValid(form: FormData) {
    && ErrorFor(form, Title).None? && ErrorFor(form, Date).None? && ErrorFor(form, Time).None?
    && ErrorFor(form, Venue).None? && ErrorFor(form, Description).None? && ErrorFor(form, Organizer).None?
    && ErrorFor(form, Category).None? && ErrorFor(form, Phone).None? && ErrorFor(form, Email).None?
    && ErrorFor(form, Image).None?
  }

  /** The field-by-field reading covers every field of the form. */
  lemma FormValidIsNoRuleFiring(form: FormData)
    ensures FormValid(form) <==> forall f :: ErrorFor(form, f).None?
  {
    if FormValid(form) {
      forall f ensures ErrorFor(form, f).None? {
        match f
        case Title => case Date => case Time => case Venue => case Description =>
        case Organizer => case Category => case Phone => case Email => case Image =>
      }
    }
  }

  /** `errors` holds the message the rules give for field `f`, and only if there is one. */
  ghost predicate Reported(errors: map<Field, string>, form: FormData, f: Field) {
    (f in errors <==> ErrorFor(form, f).Some?) && (f in errors ==> errors[f] == ErrorFor(form, f).value)
  }

  /** `errors` holds exactly the messages the rules give for `form`. */
  ghost predicate Reports(errors: map<Field, string>, form: FormData) {
    forall f :: Reported(errors, form, f)
  }

  /** Every field of the form. */
  const AllFields: set<Field> := {Title, Date, Time, Venue, Description, Organizer, Category, Phone, Email, Image}

  /** The messages `validateForm` collects: one for each field whose rule
      fires. The source adds them one `if` at a time; a map does not record
      the order, so the result is given by its contents. */
  function FormErrors(form: FormData): (m: map<Field, string>)
    ensures Reports(m, form)
  {
    map f | f in AllFields && ErrorFor(form, f).Some? :: ErrorFor(form, f).value
  }

  /** A complete report is empty exactly when the form is valid. */
  lemma NothingReportedIffValid(m: map<Field, string>, form: FormData)
    requires Reports(m, form)
    ensures m == map[] <==> FormValid(form)
  {
    FormValidIsNoRuleFiring(form);
    if m != map[] {
      var f :| f in m;
      assert Reported(m, form, f);
    } else {
      forall f ensures ErrorFor(form, f).None? {
        assert Reported(m, form, f);
      }
    }
  }

  /** The form is accepted exactly when every rule holds, with the e-mail
      rule read as the regular expression it is in the source. */
  lemma FormValidIff(form: FormData)
    ensures FormValid(form) <==>
      && !IsBlank(form.title) && form.date != [] && form.time != []
      && !IsBlank(form.venue) && !IsBlank(form.description) && form.category != []
      && form.image.Some? && (form.email == [] || MatchesEmailRegex(form.email))
  {
    EmailTestIsRegex(form.email);
  }

  /** The payload `handleSubmit` builds: title, venue, description, organizer,
      phone and e-mail trimmed; date, time and category as typed. */
  function Payload(form: FormData): CreateEventData
    requires form.image.Some?
  {
    CreateEventData(
      EventFields(Trim(form.title), form.date, form.time, Trim(form.venue), Trim(form.description),
                  Trim(form.organizer), form.category, Trim(form.phone), Trim(form.email)),
      form.image.value)
  }

  /** A valid form's payload has non-empty, trimmed required texts, and its
      e-mail is the typed one: an accepted address has nothing to trim. */
  lemma ValidPayload(form: FormData)
    requires FormValid(form)
    ensures form.image.Some?
    ensures var p := Payload(form).fields;
      && p.title != [] && !IsSpace(p.title[0]) && !IsSpace(p.title[|p.title| - 1])
      && p.venue != [] && !IsSpace(p.venue[0]) && !IsSpace(p.venue[|p.venue| - 1])
      && p.description != [] && !IsSpace(p.description[0]) && !IsSpace(p.description[|p.description| - 1])
      && p.date == form.date && p.time == form.time && p.category == form.category
      && p.email == form.email
  {
    if form.email != [] {
      EmailIsTrimmed(form.email);
    } else {
      assert AllSpace(form.email);
    }
  }

  /** The check `handleImageChange` applies to a chosen file: the type first,
      then the size, which may be exactly 5 MiB. */
  function ImageRejection(file: ImageFile): (r: Option<string>)
    ensures r.None? <==> file.mimeType in ValidImageTypes && file.size <= MaxImageSize
    ensures file.mimeType !in ValidImageTypes ==> r == Some(InvalidImageType)
    ensures file.mimeType in ValidImageTypes && file.size > MaxImageSize ==> r == Some(ImageTooLarge)
  {
    if file.mimeType !in ValidImageTypes then Some(InvalidImageType)
    else if file.size > MaxImageSize then Some(ImageTooLarge)
    else None
  }

  /** The text input `f` set to `value`. */
  function WithText(form: FormData, f: Field, value: string): FormData
    requires f != Image
  {
    match f
    case Title => form.(title := value)
    case Date => form.(date := value)
    case Time => form.(time := value)
    case Venue => form.(venue := value)
    case Description => form.(description := value)
    case Organizer => form.(organizer := value)
    case Category => form.(category := value)
    case Phone => form.(phone := value)
    case Email => form.(email := value)
  }

  /** Setting one input leaves the rules of every other field as they were. */
  lemma EditKeepsOtherRules(form: FormData, f: Field, value: string, g: Field)
    requires f != Image && g != f
    ensures ErrorFor(WithText(form, f, value), g) == ErrorFor(form, g)
  {
  }

  /** The message of the error `createEvent` throws when the upload or the
      insert is refused; it is always an `Error`, so the form shows it as is. */
  function CreateFailure(blobs: set<string>, key: string, upload: Reply, insert: Reply): string
    requires !(EventService.UploadAccepted(blobs, key, upload) && insert.Succeeds?)
  {
    if !EventService.UploadAccepted(blobs, key, upload) then
      EventService.UploadFailedPrefix + EventService.UploadRejection(key, upload).message
    else EventService.CreateFailedPrefix + insert.error.message
  }

  class AddEventModal {
    var defaultOrganizer: string
    var defaultEmail: string
    var formData: FormData
    var errors: map<Field, string>
    var isSubmitting: bool

    /** The props `defaultOrganizer` and `defaultEmail`, each optional. */
    constructor (organizer: Option<string>, email: Option<string>)
      ensures defaultOrganizer == organizer.GetOr(DefaultOrganizer) && defaultEmail == email.GetOr(DefaultEmail)
      ensures formData == InitialForm(defaultOrganizer, defaultEmail) && errors == map[] && !isSubmitting
    {
      defaultOrganizer := organizer.GetOr(DefaultOrganizer);
      defaultEmail := email.GetOr(DefaultEmail);
      formData := InitialForm(organizer.GetOr(DefaultOrganizer), email.GetOr(DefaultEmail));
      errors := map[];
      isSubmitting := false;
    }

    /** The effect that copies changed defaults into the form. */
    method DefaultsChanged(organizer: string, email: string)
      modifies this`defaultOrganizer, this`defaultEmail, this`formData
      ensures defaultOrganizer == organizer && defaultEmail == email
      ensures formData == old(formData).(organizer := organizer, email := email)
    {
      defaultOrganizer, defaultEmail := organizer, email;
      formData := formData.(organizer := organizer, email := email);
    }

    /** `handleInputChange`: store the typed value and clear that field's message. */
    method HandleInputChange(f: Field, value: string)
      requires f != Image
      modifies this`formData, this`errors
      ensures formData == WithText(old(formData), f, value)
      ensures errors == ClearError(old(errors), f)
    {
      formData := WithText(formData, f, value);
      errors := ClearError(errors, f);
    }

    /** `handleImageChange`: keep an acceptable file and clear its message, or
        record why the file is refused and keep the previous one. */
    method HandleImageChange(file: Option<ImageFile>)
      modifies this`formData, this`errors
      ensures file.None? ==> formData == old(formData) && errors == old(errors)
      ensures file.Some? && ImageRejection(file.value).Some? ==>
        formData == old(formData) && errors == old(errors)[Image := ImageRejection(file.value).value]
      ensures file.Some? && ImageRejection(file.value).None? ==>
        formData == old(formData).(image := file) && errors == ClearError(old(errors), Image)
    {
      if file.Some? {
        var f := file.value;
        if f.mimeType !in ValidImageTypes {
          errors := errors[Image := InvalidImageType];
          return;
        }
        if f.size > MaxImageSize {
          errors := errors[Image := ImageTooLarge];
          return;
        }
        formData := formData.(image := file);
        if Image in errors && errors[Image] != [] {
          errors := errors[Image := []];
        }
      }
    }

    /** `validateForm`: record a message for every failing rule and report
        whether there were none. */
    method ValidateForm() returns (valid: bool)
      modifies this`errors
      ensures errors == FormErrors(old(formData))
      ensures Reports(errors, formData)
      ensures valid <==> errors == map[]
      ensures valid <==> FormValid(old(formData))
    {
      var newErrors := FormErrors(formData);
      NothingReportedIffValid(newErrors, formData);
      errors := newErrors;
      valid := |newErrors| == 0;
    }

    /** `handleSubmit`: validate, then create the event from the trimmed
        payload; on success reset the form, otherwise show the error on the
        title field and keep what was typed. */
    method HandleSubmit(b: Backend, stamp: string, now: string, upload: Reply, insert: Reply, cleanup: Reply)
      returns (created: bool)
      requires b.Valid()
      modifies this`formData, this`errors, this`isSubmitting, b
      ensures b.Valid()
      ensures !FormValid(old(formData)) ==>
        && !created && isSubmitting == old(isSubmitting) && formData == old(formData)
        && Reports(errors, old(formData)) && b.events == old(b.events) && b.blobs == old(b.blobs)
      ensures FormValid(old(formData)) ==>
        && old(formData).image.Some? && !isSubmitting
        && (created <==>
              EventService.UploadAccepted(old(b.blobs), EventService.StorageKey(stamp, old(formData).image.value.name), upload)
              && insert.Succeeds?)
      ensures created ==>
        && FormValid(old(formData))
        && |b.events| == |old(b.events)| + 1 && b.events[..|old(b.events)|] == old(b.events)
        && FieldsOf(b.events[|old(b.events)|]) == Payload(old(formData)).fields
        && formData == InitialForm(defaultOrganizer, defaultEmail) && errors == map[]
      ensures FormValid(old(formData)) && !created ==>
        && formData == old(formData) && b.events == old(b.events)
        && errors == map[Title := CreateFailure(old(b.blobs), EventService.StorageKey(stamp, old(formData).image.value.name),
                                                upload, insert)]
    {
      var valid := ValidateForm();
      if !valid {
        created := false;
        return;
      }
      created := SubmitForm(b, stamp, now, upload, insert, cleanup);
    }

    /** The `try`/`finally` part of `handleSubmit`, reached once the form is valid:
        `createEvent` with the trimmed payload, then reset the form or show
        the error on the title field; `isSubmitting` is off again at the end. */
    method SubmitForm(b: Backend, stamp: string, now: string, upload: Reply, insert: Reply, cleanup: Reply)
      returns (created: bool)
      requires b.Valid() && formData.image.Some?
      modifies this`formData, this`errors, this`isSubmitting, b
      ensures b.Valid() && !isSubmitting
      ensures created <==>
        EventService.UploadAccepted(old(b.blobs), EventService.StorageKey(stamp, old(formData).image.value.name), upload)
        && insert.Succeeds?
      ensures created ==>
        && |b.events| == |old(b.events)| + 1 && b.events[..|old(b.events)|] == old(b.events)
        && FieldsOf(b.events[|old(b.events)|]) == Payload(old(formData)).fields
        && formData == InitialForm(defaultOrganizer, defaultEmail) && errors == map[]
      ensures !created ==>
        && formData == old(formData) && b.events == old(b.events)
        && errors == map[Title := CreateFailure(old(b.blobs), EventService.StorageKey(stamp, old(formData).image.value.name),
                                                upload, insert)]
    {
      isSubmitting := true;
      var data := Payload(formData);
      var r := EventService.CreateEvent(b, data, stamp, now, upload, insert, cleanup);
      if r.Ok? {
        formData := InitialForm(defaultOrganizer, defaultEmail);
        errors := map[];
        created := true;
      } else {
        errors := map[Title := r.error];
        created := false;
      }
      isSubmitting := false;
    }
  }
}
