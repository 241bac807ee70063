/** The records the application exchanges with the hosted database
    (src/types/Event.ts, src/types/EventAttendee.ts) and the shapes of the
    service inputs (src/lib/eventService.ts). Column names are written in
    camel case: `eventId` is the column `event_id`. */
module Types {
  import opened Wrappers

  /** A row of the `events` table. */
  datatype Event = Event(
    id: int,
    title: string,
    description: string,
    venue: string,
    date: string,
    time: string,
    category: string,
    image: string,
    organizer: string,
    phone: string,
    email: string,
    createdAt: string,
    updatedAt: string)

  /** A row of the `event_attendees` table. */
  datatype EventAttendee = EventAttendee(
    id: string,
    eventId: int,
    userId: string,
    userEmail: string,
    attendedAt: string,
    createdAt: string)

  /** What `attendEvent` sends for one registration. */
  datatype AttendEventData = AttendEventData(eventId: int, userId: string, userEmail: string)

  /** The browser `File` an event image comes from: its name, MIME type and size in bytes. */
  datatype ImageFile = ImageFile(name: string, mimeType: string, size: nat)

  /** The nine text columns that creating and updating an event write. */
  datatype EventFields = EventFields(
    title: string,
    date: string,
    time: string,
    venue: string,
    description: string,
    organizer: string,
    category: string,
    phone: string,
    email: string)

  /** `CreateEventData`: the text fields and the image, which is required. */
  datatype CreateEventData = CreateEventData(fields: EventFields, image: ImageFile)

  /** `UpdateEventData`: the text fields and an optional replacement image. */
  datatype UpdateEventData = UpdateEventData(fields: EventFields, image: Option<ImageFile>)

  function FieldsOf(e: Event): EventFields {
    EventFields(e.title, e.date, e.time, e.venue, e.description, e.organizer, e.category, e.phone, e.email)
  }

  /** An error the hosted platform reports: its code (a PostgreSQL SQLSTATE such
      as `23505`, or the platform's own), its message, and whether the client
      library hands it over as a JavaScript `Error` object. */
  datatype DbError = DbError(code: string, message: string, isErrorInstance: bool)

  /** The platform's answer to one remote call: the model's failure injection.
      A `Fails` answer stands for any fault the platform or the network reports. */
  datatype Reply = Succeeds | Fails(error: DbError)

  /** The signed-in identity as the auth subsystem supplies it; its e-mail may be absent. */
  datatype User = User(id: string, email: Option<string>)

  /** A value a `catch` clause receives. */
  datatype Thrown = ErrorInstance(message: string) | NonError

  /** `err instanceof Error ? err.message : 'An error occurred'`. */
  function Describe(t: Thrown): (text: string)
    ensures t.ErrorInstance? ==> text == t.message
    ensures t.NonError? ==> text == "An error occurred"
  {
    match t
    case ErrorInstance(m) => m
    case NonError => "An error occurred"
  }

  /** What a `catch` clause receives when a platform error is rethrown as it is. */
  function RawThrown(e: DbError): (t: Thrown)
    ensures t.ErrorInstance? <==> e.isErrorInstance
    ensures t.ErrorInstance? ==> t.message == e.message
  {
    if e.isErrorInstance then ErrorInstance(e.message) else NonError
  }
}
