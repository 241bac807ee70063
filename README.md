# ShowGo core in Dafny

ShowGo is a single-page concert listing application over a hosted database and blob store. Users browse the events, sign up and sign in, create an event with an image, attend or leave events, and see on a profile page the events they created and the events they attend.

This project models the application's logic in Dafny and proves properties of that model. The parts modelled are:

- **Event repository** (`EventService`): `createEvent`, `updateEvent` and `deleteEvent`.
  - Each is modelled as a method over the hosted platform (`Platform.Backend`).
  - The platform state is an `events` table, an `event_attendees` table and a set of blob keys.
  - Every remote call takes a `Reply` that decides whether the platform fails it; this is how the model injects failures.
  - The contracts state the tables and the blobs after every failure point. They also prove two invariants: every row's image names a stored blob, and no two rows share a blob.
- **Attendance repository** (`AttendeeService`): registering and unregistering, the attendance check, and the two listings.
  - Registering and unregistering are methods on the `event_attendees` table.
  - The attendance check and the two listings are functions of that table.
- **The two list hooks**, modelled as classes whose fields are the hook's state.
  - `UseEvents`: the events list, with `loading` and `error`.
  - `UseUserAttendingEvents`: the attending list, which joins registrations onto events and keeps a refresh counter.
- **The three forms**, each a class holding the form data, the per-field messages and the submitting flag.
  - `AddEvent`, `SignUp` and `SignIn` hold the validation rules and the payloads the forms send.
  - `Forms` holds what the forms share.
  - `EmailPattern` holds the e-mail pattern `^[^\s@]+@[^\s@]+\.[^\s@]+$`. It is written as a regular-expression-shaped predicate and as a direct test, and the two are proved equivalent.
- **The profile page and the event modal**:
  - `ProfilePage`: the ownership filter and its category colours.
  - `EventModal`: the button visibility rules, the attend/leave toggle, the owner's delete and the attendance check.
  - `CategoryColors`: the category colour lookup the two components share.

JavaScript behaviour that is not Dafny's is written out:

- `String.prototype.trim` and the `\s` class are in `Strings`.
- UTF-16 length counts two code units for characters outside the basic plane.
- `split(sep).pop()` is `Strings.LastSegment`.
- Indexing an object literal with `||` follows the prototype chain, as described under Findings.

Where the code and the project's design description disagree, the model follows the code:

- The attending list is ordered by event date, earliest first. The description says most recently attended first.
- A failed events fetch keeps the previous list. The description says the list is emptied.

## Model

| member | source | states |
|---|---|---|
| Strings.Trim | src/components/SignUpModal.tsx:102 | `trim()` yields nothing exactly when every character is JavaScript white space; otherwise the result starts and ends with a non-space character |
| Strings.TrimIsSlice | src/components/AddEventModal.tsx:225-233 | the trimmed text is the contiguous slice of the input between the leading and the trailing white space, both of which consist of white space only |
| Strings.TrimNoSpace | src/components/SignUpModal.tsx:133 | a string without white space is its own trim |
| Strings.TrimStartShape | src/components/AddEventModal.tsx:225 | the removed prefix is all white space and the rest starts with a non-space |
| Strings.TrimEndShape | src/components/AddEventModal.tsx:225 | the removed suffix is all white space and the rest ends with a non-space |
| Strings.LastSegment | src/lib/eventService.ts:32 | `split(sep).pop()` is no longer than the input |
| Strings.LastSegmentShape | src/lib/eventService.ts:32 | the last segment is a `sep`-free suffix, preceded by `sep` unless it is the whole string |
| Strings.LastSegmentWithoutSeparator | src/lib/eventService.ts:32 | a name without a `.` is its own extension |
| Strings.LastSegmentAfterSeparator | src/lib/eventService.ts:116 | the last `/`-segment of `prefix/tail` is `tail` when `tail` has no `/` |
| Strings.Utf16Length | src/components/SignUpModal.tsx:114 | JavaScript's `length` counts at least one and at most two code units per character |
| Sorting.LexLeTotal | src/hooks/useEvents.ts:18 | the string order of timestamps relates any two values |
| Sorting.LexLeTransitive | src/hooks/useEvents.ts:18 | the string order of timestamps is transitive |
| Sorting.Insert | src/lib/attendeeService.ts:73 | inserting into an ordered result keeps it ordered and adds exactly the new row |
| Sorting.SortBy | src/lib/attendeeService.ts:73 | an `order(column)` result is ordered on the column, ascending or descending, and is a permutation of the rows |
| Sorting.Filter | src/components/ProfilePage.tsx:28-30 | `filter` keeps every satisfying element with its multiplicity, drops the others, and keeps the original order |
| Sorting.FilterMembership | src/components/ProfilePage.tsx:28-30 | an element is in the filtered list exactly when it is in the list and satisfies the predicate |
| Sorting.SubsequenceIn | src/lib/attendeeService.ts:33-37 | every row a delete leaves was a row before |
| Sorting.SubsequenceDistinct | src/lib/attendeeService.ts:33-37 | deleting rows keeps a unique column unique |
| EmailPattern.IndexOf | src/components/AddEventModal.tsx:205 | the first occurrence of a character that occurs |
| EmailPattern.RegexSplitChars | src/components/AddEventModal.tsx:205 | a match has no white space and its only `@` is the separator |
| EmailPattern.RegexMatchPassesEmailTest | src/components/AddEventModal.tsx:205-206 | every string the pattern matches has one `@`, no white space and an inner `.` after the `@` |
| EmailPattern.EmailTestPassesRegex | src/components/AddEventModal.tsx:205-206 | every string passing that test is matched by the pattern |
| EmailPattern.EmailTestIsRegex | src/components/SignUpModal.tsx:107-108 | the direct test and the pattern accept the same strings |
| EmailPattern.EmailIsTrimmed | src/components/SignUpModal.tsx:133 | an accepted address is unchanged by `trim()` |
| EmailPattern.EmailIsNotBlank | src/components/SignUpModal.tsx:103-110 | an accepted address is never blank, so "required" and "invalid" exclude each other |
| Types.Describe | src/hooks/useEvents.ts:26 | a thrown `Error` is shown by its message, any other thrown value as 'An error occurred' |
| Types.RawThrown | src/hooks/useEvents.ts:20-22 | a rethrown platform error is an `Error` exactly when the client library hands over one, and then carries the platform's message |
| Platform.PublicUrlNamesKey | src/lib/eventService.ts:48-52 | the last `/`-segment of an image's public URL is the key it was uploaded under |
| Platform.IndexOfId | src/lib/eventService.ts:184 | `eq('id', id)` finds the row with that id, or there is none |
| Platform.EventsNewestFirst | src/hooks/useEvents.ts:15-18 | every row, ordered by `created_at` descending |
| Platform.EventsWithIdsByDate | src/hooks/useUserAttendingEvents.ts:41-45 | exactly the rows whose id is listed, with their multiplicities, ordered by `date` ascending |
| Platform.AttendeesOfUser | src/lib/attendeeService.ts:69-73 | exactly the user's rows, ordered by `attended_at` descending |
| Platform.AttendeesOfEvent | src/lib/attendeeService.ts:50-54 | exactly the event's rows, ordered by `attended_at` ascending |
| Platform.PairRows | src/lib/attendeeService.ts:88-93 | `limit(1)` yields at most one row, and one exactly when the pair is registered |
| Platform.Backend.Upload | src/lib/eventService.ts:35-41 | with `upsert: false` the upload adds the key exactly when the platform answers and the key is new; otherwise the blobs are unchanged and the error says why |
| Platform.Backend.Remove | src/lib/eventService.ts:76-78 | a removal that goes through drops the key (a missing key is no error); a failed one changes nothing |
| Platform.Backend.InsertEvent | src/lib/eventService.ts:68-72 | an insert appends one row with the given fields and image, a fresh id and both timestamps, or changes nothing |
| Platform.Backend.SelectImage | src/lib/eventService.ts:93-97 | `.single()` on the row's image: the platform's error, the no-row error, and otherwise the image of the row with that id |
| Platform.Backend.DeleteEvent | src/lib/eventService.ts:104-107 | a delete leaves exactly the rows with other ids, or changes nothing on failure |
| Platform.Backend.UpdateEvent | src/lib/eventService.ts:181-186 | an update rewrites exactly the row with that id with the patch, or fails without change when there is no such row |
| Platform.Backend.InsertAttendee | src/lib/attendeeService.ts:6-14 | an insert appends exactly one row with the given event, user and e-mail; a second row for the same pair is refused with code `23505` |
| Platform.Backend.DeleteAttendees | src/lib/attendeeService.ts:33-37 | a delete leaves exactly the rows of other pairs, or changes nothing on failure |
| EventService.StorageKeyExtension | src/lib/eventService.ts:32-33 | the storage key is the stamp, `.`, and the text after the last `.` of the file name (all of it when there is none), which is again the key's extension |
| EventService.CreateEvent | src/lib/eventService.ts:29-88 | a refused upload throws 'Image upload failed: …' and inserts no row; a refused insert throws 'Failed to create event: …' and removes the upload again unless that removal fails; otherwise one row with the fields and the public URL of the upload is appended; the image invariant is kept |
| EventService.UpdateEvent | src/lib/eventService.ts:132-207 | a refused upload changes nothing; a refused update leaves the row and removes only a new upload; otherwise exactly that row gets the fields, `updated_at` and, only when one was uploaded, the new image, and no old blob is removed; the image invariant is kept |
| EventService.DeleteEvent | src/lib/eventService.ts:90-131 | a failed fetch or delete throws and touches neither rows nor blobs; after the row is deleted the image's blob is removed at best effort and the call succeeds; the image invariant is kept |
| EventService.PublicImageKey | src/lib/eventService.ts:48-52 | the key a stored row's image URL names is its upload key |
| EventService.BackedUnderMoreBlobs | src/lib/eventService.ts:74-78 | a blob left behind by a failed cleanup does not break the image invariant |
| EventService.BackedAfterAppend | src/lib/eventService.ts:68-72 | appending a row whose image is a fresh upload keeps the image invariant |
| EventService.BackedAfterReplace | src/lib/eventService.ts:175-186 | replacing a row's image by a fresh upload, or keeping it, keeps the image invariant |
| EventService.BackedAfterDelete | src/lib/eventService.ts:104-120 | deleting a row and its blob keeps every other row backed |
| EventService.DeleteKeepsBacked | src/lib/eventService.ts:113-126 | deleting a row and then cleaning up its image, whatever the cleanup answers, keeps the image invariant |
| EventService.UpdateWithoutImageKeepsImage | src/lib/eventService.ts:161-178 | an update without a new image writes the nine text fields and `updated_at` and keeps the id, the image URL and `created_at` |
| AttendeeService.AlreadyRegisteredIffUniqueViolation | src/lib/attendeeService.ts:16-22 | code `23505` and no other error gives 'You are already registered to attend this event'; any other gives 'Failed to register for event: ' and the message |
| AttendeeService.AttendEvent | src/lib/attendeeService.ts:4-29 | exactly one row with the given event, user and e-mail is inserted and returned, or nothing changes and the mapped message is thrown |
| AttendeeService.UnattendEvent | src/lib/attendeeService.ts:31-46 | every row of the pair and no other is removed, matching none is no error, and a failure changes nothing |
| AttendeeService.UnattendRemovesExactlyThePair | src/lib/attendeeService.ts:33-37 | after unregistering, a row remains exactly when it is of another pair, and the pair has no row |
| AttendeeService.CheckUserAttendance | src/lib/attendeeService.ts:86-104 | true exactly when a row of the pair exists and the query succeeds; a failed query answers false |
| AttendeeService.CheckAfterAttend | src/lib/attendeeService.ts:86-99 | after a registration goes through, the check for the pair is true |
| AttendeeService.CheckAfterUnattend | src/lib/attendeeService.ts:86-99 | after unregistering the pair, the check for it is false |
| AttendeeService.GetUserAttendingEvents | src/lib/attendeeService.ts:67-84 | a failed query throws its prefixed message; otherwise exactly the user's rows, most recent attendance first |
| AttendeeService.GetEventAttendees | src/lib/attendeeService.ts:48-65 | a failed query throws its prefixed message; otherwise exactly the event's rows, earliest attendance first |
| UseEvents.EventsHook.constructor | src/hooks/useEvents.ts:6-8 | the first state is no events, loading, no error |
| UseEvents.EventsHook.BeginFetch | src/hooks/useEvents.ts:12-13 | a fetch starts loading and clears the error |
| UseEvents.EventsHook.CompleteFetch | src/hooks/useEvents.ts:15-30 | success shows the rows newest first; failure records the message or 'An error occurred' and keeps the list; loading ends |
| UseEvents.EventsHook.FetchEvents | src/hooks/useEvents.ts:10-31 | `fetchEvents` as a whole: the list newest first and no error, or the old list and the error; loading ends either way |
| UseUserAttendingEvents.EventIdsOf | src/hooks/useUserAttendingEvents.ts:38 | one event id per record, in the records' order |
| UseUserAttendingEvents.FirstRecordFor | src/hooks/useUserAttendingEvents.ts:53 | `find` yields the first record for the event, or none when no record names it |
| UseUserAttendingEvents.WithAttendance | src/hooks/useUserAttendingEvents.ts:52-58 | one entry per fetched event, in fetched order, with the `attended_at` of the first matching record or '' |
| UseUserAttendingEvents.AttendingEventsHook.constructor | src/hooks/useUserAttendingEvents.ts:12-15 | the first state is no events, loading, no error and a zero counter |
| UseUserAttendingEvents.AttendingEventsHook.FetchAttendingEvents | src/hooks/useUserAttendingEvents.ts:17-67 | no user (absent or empty id) gives an empty list and leaves the error; no records give an empty list; a failure records the error and keeps the list; otherwise the joined list; loading ends in every case |
| UseUserAttendingEvents.AttendingEventsHook.Refresh | src/hooks/useUserAttendingEvents.ts:73-75 | `refresh` raises the counter by exactly one |
| UseUserAttendingEvents.JoinedEventsAreAttended | src/hooks/useUserAttendingEvents.ts:38-58 | every joined event is a table row named by one of the user's records and carries the time of the first such record |
| UseUserAttendingEvents.JoinedEventsByDate | src/hooks/useUserAttendingEvents.ts:41-52 | the joined list is ordered by event date, earliest first |
| Forms.ClearError | src/components/AddEventModal.tsx:125-131 | typing empties only the edited field's message, keeps every other message, and adds no field |
| Forms.EmailRule | src/components/SignUpModal.tsx:103-111 | blank gives 'Email is required', otherwise a value the pattern does not match as typed gives 'Please enter a valid email address', and no message exactly when the pattern matches |
| Forms.FailureText | src/components/SignUpModal.tsx:140-163 | a failed call shows `result.error` when non-empty, a thrown `Error`'s message, or the fallback text |
| AddEvent.FormValidIsNoRuleFiring | src/components/AddEventModal.tsx:196-208 | the form is valid exactly when no field's rule fires |
| AddEvent.FormErrors | src/components/AddEventModal.tsx:194-208 | the collected messages are exactly those of the fields whose rule fires |
| AddEvent.NothingReportedIffValid | src/components/AddEventModal.tsx:210-211 | `Object.keys(newErrors).length === 0` exactly when the form is valid |
| AddEvent.FormValidIff | src/components/AddEventModal.tsx:196-208 | valid exactly when title, venue and description are non-blank, date, time and category non-empty, an image is chosen, and the e-mail is empty or matches the pattern; organizer and phone are never checked |
| AddEvent.ValidPayload | src/components/AddEventModal.tsx:224-235 | a valid form sends title, venue and description non-empty and starting and ending with a non-space character, date, time and category as typed, and its e-mail unchanged |
| AddEvent.ImageRejection | src/components/AddEventModal.tsx:138-155 | a file is accepted exactly when its type is one of the five and its size at most 5 MiB; the type is checked first |
| AddEvent.EditKeepsOtherRules | src/components/AddEventModal.tsx:118-123 | editing one input leaves the verdict on every other field unchanged |
| AddEvent.AddEventModal.constructor | src/components/AddEventModal.tsx:26-52 | the defaults 'ShowGo Events' and 'info@showgo.com', the initial form with phone '(123) 456-7890', no errors, not submitting |
| AddEvent.AddEventModal.DefaultsChanged | src/components/AddEventModal.tsx:57-63 | changed defaults overwrite the organizer and e-mail and nothing else |
| AddEvent.AddEventModal.HandleInputChange | src/components/AddEventModal.tsx:118-132 | only the edited field changes and only its message is cleared |
| AddEvent.AddEventModal.HandleImageChange | src/components/AddEventModal.tsx:134-177 | a refused file records why and keeps the previous image; an accepted one becomes the image and clears its message; no file changes nothing |
| AddEvent.AddEventModal.ValidateForm | src/components/AddEventModal.tsx:193-212 | the messages become exactly the failing rules' ones, and the answer is true exactly when there are none, which is exactly when the form is valid |
| AddEvent.AddEventModal.HandleSubmit | src/components/AddEventModal.tsx:214-269 | `createEvent` runs only for a valid form; success appends the row with the trimmed payload and resets the form; failure keeps the form and shows the thrown message on the title field |
| AddEvent.AddEventModal.SubmitForm | src/components/AddEventModal.tsx:221-268 | the submission is created exactly when upload and insert go through, and `isSubmitting` is off afterwards |
| SignUp.PasswordRule | src/components/SignUpModal.tsx:112-116 | an empty password is required, a shorter one than six code units too short, and six are enough |
| SignUp.FormValidIsNoRuleFiring | src/components/SignUpModal.tsx:102-116 | valid exactly when no rule fires: a non-blank name, a matching e-mail and a password of six code units or more |
| SignUp.NothingReportedIffValid | src/components/SignUpModal.tsx:118-119 | no recorded message exactly when the form is valid |
| SignUp.ValidPayload | src/components/SignUpModal.tsx:132-136 | a valid form sends the e-mail as typed, a trimmed non-empty name and the password untouched |
| SignUp.SignUpModal.constructor | src/components/SignUpModal.tsx:21-28 | empty form, no errors, not submitting |
| SignUp.SignUpModal.HandleInputChange | src/components/SignUpModal.tsx:83-97 | only the edited field changes and only its message is cleared |
| SignUp.SignUpModal.ValidateForm | src/components/SignUpModal.tsx:99-120 | the messages are exactly the failing rules' ones, at most one per field, and the answer is true exactly when the form is valid |
| SignUp.SignUpModal.HandleSubmit | src/components/SignUpModal.tsx:122-167 | `signUp` gets the trimmed payload only for a valid form; success empties the form and the messages; failure keeps the form and shows the reason on the e-mail field |
| SignIn.FormValidIsNoRuleFiring | src/components/SignInModal.tsx:100-111 | valid exactly when the e-mail matches and the password is non-empty, with no length rule |
| SignIn.NothingReportedIffValid | src/components/SignInModal.tsx:113-114 | no recorded message exactly when the form is valid |
| SignIn.ValidPayload | src/components/SignInModal.tsx:127-130 | a valid form sends the e-mail as typed and the password untouched |
| SignIn.SignInModal.constructor | src/components/SignInModal.tsx:20-26 | empty form, no errors, not submitting |
| SignIn.SignInModal.HandleInputChange | src/components/SignInModal.tsx:81-95 | only the edited field changes and only its message is cleared |
| SignIn.SignInModal.ValidateForm | src/components/SignInModal.tsx:97-115 | the messages are exactly the failing rules' ones and the answer is true exactly when the form is valid |
| SignIn.SignInModal.HandleSubmit | src/components/SignInModal.tsx:117-160 | `signIn` gets the trimmed e-mail only for a valid form; success empties the form and the messages; failure keeps the form and shows the reason on the e-mail field |
| CategoryColors.Keys | src/components/ProfilePage.tsx:81-88 | the property names of a literal, one per entry, in order |
| CategoryColors.OwnProperty | src/components/ProfilePage.tsx:89 | an own property is found exactly when the name is written, and its value is the one written beside that name's last occurrence, as in an object literal |
| CategoryColors.OwnPropertyOfListedKey | src/components/ProfilePage.tsx:81-89 | with distinct names, every listed name yields its own value |
| CategoryColors.CategoriesDistinct | src/components/AddEventModal.tsx:54 | the six genres are different names |
| CategoryColors.GenreTable | src/components/ProfilePage.tsx:81-88 | a colour table lists the six genres in order, each with its class |
| CategoryColors.GenreProperty | src/components/ProfilePage.tsx:81-89 | each genre is found with the class written beside it |
| CategoryColors.CategoryColor | src/components/ProfilePage.tsx:89 | the own non-empty value, and the fallback for any name that is not written |
| CategoryColors.LookupAsWritten | src/components/ProfilePage.tsx:89 | as JavaScript evaluates it: agrees with `CategoryColor` except on the names every object inherits, which yield the inherited member |
| CategoryColors.OfferedCategoriesAgree | src/components/AddEventModal.tsx:54 | for every category the form offers, the lookup as written and the corrected one agree |
| CategoryColors.InheritedNameEscapesFallback | src/components/ProfilePage.tsx:89 | as written, the category `toString` yields an inherited function, not a class string |
| ProfilePage.UserCreatedEvents | src/components/ProfilePage.tsx:28-30 | no user gives no events; otherwise exactly the events whose e-mail is the user's, with their multiplicities, in list order |
| ProfilePage.GetCategoryColor | src/components/ProfilePage.tsx:80-90 | an unknown category gets 'bg-purple-500' |
| ProfilePage.CategoryColorTable | src/components/ProfilePage.tsx:81-88 | each of the six genres gets its listed class |
| ProfilePage.UnknownCategoryColor | src/components/ProfilePage.tsx:84-89 | an unknown category gets the fallback, the class of Electronic |
| EventModal.ButtonsExclusive | src/components/EventModal.tsx:184-392 | a closed or loading modal, or one without an event, shows no action button; whenever an event is shown, owner controls and Attend are never both shown and one of them is shown to a signed-in user; Join to Attend only for a visitor with the handler and never beside them |
| EventModal.GetCategoryColor | src/components/EventModal.tsx:111-121 | an unknown category gets the purple fallback classes |
| EventModal.CategoryColorTable | src/components/EventModal.tsx:112-119 | each of the six genres gets its listed classes |
| EventModal.UnknownCategoryColor | src/components/EventModal.tsx:115-120 | an unknown category gets the fallback, the classes of Electronic |
| EventModal.Modal.constructor | src/components/EventModal.tsx:31-34 | all four flags start false |
| EventModal.Modal.CheckAttendance | src/components/EventModal.tsx:64-80 | only when open with an event, a user and a session is `userIsAttending` set from `checkUserAttendance`; checking ends false |
| EventModal.Modal.HandleAttendEvent | src/components/EventModal.tsx:153-183 | without an event or a user nothing happens; an attending user is unregistered, another registered with e-mail defaulting to ''; only success flips `userIsAttending` and notifies the parent; a failed unregistration alerts 'Failed to unregister from event: ' and the message, a failed registration the mapped message ('You are already registered to attend this event' for a duplicate); `isAttending` ends false |
| EventModal.Modal.HandleDeleteEvent | src/components/EventModal.tsx:123-151 | `deleteEvent` runs only with an event and confirmation; only its success removes the row and notifies the parent; failure alerts 'Failed to delete event. Please try again.'; `isDeleting` ends false |

## Left out

- The hosted platform itself is abstract: tables are sequences, the bucket is a set of keys, and every call's outcome is a `Reply` parameter. Foreign keys between the tables are not modelled.
- The bucket's public address is the configuration constant `Backend.bucketUrl`.
- Platform.PublicUrl: the public URL is taken to be the bucket address, `/` and the key verbatim. How the client library builds and encodes that URL is not part of this model. If it percent-encodes characters of the key, such as a space or a non-ASCII letter in a file extension, the URL's last segment differs from the key. The image invariant of EventService.CreateEvent, EventService.UpdateEvent and EventService.DeleteEvent then holds only for keys that the encoding leaves unchanged.
- The time-and-random part of a storage key (`Date.now()`, `Math.random()`) is the parameter `stamp`. The `updated_at` timestamp and the ids and timestamps the store assigns are parameters too (`now`, `newId`).
- EventService.CreateEvent and EventService.UpdateEvent: the image invariant is proved only for storage keys without `/`. A file extension containing `/` would make a key whose URL does not name it.
- Query ordering compares timestamps and dates as text, which matches ISO-8601 values. The model returns rows with equal keys in table order; the platform promises no order for them, and no contract relies on it.
- `data || []`: a successful query always returns rows in the model, so the empty fallback has no separate case.
- Thrown errors that do not come back as a platform error are not modelled, for example a network exception inside `remove`, which inside `createEvent` would replace the 'Failed to create event' error. The authentication functions catch every exception themselves and answer it as a failed result, which the model gives as `AuthReply.Answered(false, …)`. `AuthReply.Threw` stands for the forms' own defensive `catch`, which the authentication functions never trigger.
- The authentication service and its hook (`signUp`, `signIn`, the session subscription) are not part of this model. Their answer to a form is the `AuthReply` parameter, and the signed-in user is an input.
- Rendering, the ESC key, backdrop and focus-trap handlers, `document.body.style` and the `FileReader` preview are left out. So are `handleRemoveImage`, `handleImageClick`, `handleClose` and the success `alert`s of the account forms.
- `alert` in the event modal becomes a returned message, and the confirmation dialog becomes the boolean `confirmed`. The `onClose`, `onEventCreated`, `onEventDeleted` and `onAttendanceChanged` callbacks become the returned flags `created`, `deleted` and `notified`. `window.location.reload` is left out.
- Effect scheduling and asynchronous interleaving are left out. This covers the re-run of the attending fetch when `refreshTrigger` changes, stale updates after unmount, and the moment `loading` is visibly true during a fetch.
- AddEvent.AddEventModal.ValidateForm: the messages are given as the contents of the map. The source fills them one `if` after another, and the order in which the keys were added is not modelled.
- AddEvent.AddEventModal.HandleSubmit: the fallback text 'Failed to create event. Please try again.' is not modelled, because `createEvent` only ever throws `Error` values and so that branch cannot be reached.
- EventModal.Modal.HandleAttendEvent: the fallback alert 'Failed to update attendance. Please try again.' is not modelled, because `attendEvent` and `unattendEvent` only ever throw `Error` values and so that branch cannot be reached.
- `EditEventModal` is not part of this model because its source is not available. `EventCard` has the same category lookup as the profile page; its lookup is not modelled separately.
- Category colours: `GetCategoryColor` in `ProfilePage` and `EventModal` is the corrected lookup described under Findings. The lookup as written is `CategoryColors.LookupAsWritten`.

## Findings

| source | as written | input that shows it | evidently intended | confidence | as-written member | corrected member |
|---|---|---|---|---|---|---|
| src/components/ProfilePage.tsx:89 | `colors[category] \|\| 'bg-purple-500'` also finds the properties every object inherits from `Object.prototype`. The same lookup is at src/components/EventModal.tsx:120. | an event whose category is `toString` (or `constructor`, `valueOf`, `__proto__`, …). The lookup yields an inherited function, which is truthy, so its source text becomes the class attribute instead of the fallback. | only the six genres get their classes; every other category gets the fallback | medium, not executed (categories typed through the form are always one of the six, as `OfferedCategoriesAgree` shows; other writers of the table can store any text) | CategoryColors.LookupAsWritten (CategoryColors.InheritedNameEscapesFallback) | CategoryColors.CategoryColor (ProfilePage.UnknownCategoryColor, EventModal.UnknownCategoryColor) |
