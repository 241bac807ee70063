/** The attendance repository (src/lib/attendeeService.ts): registering and
    unregistering a user for an event, and the queries over `event_attendees`.
    The table keeps (event_id, user_id) unique; `Backend.Valid` carries that
    constraint. The row id and the timestamps the store assigns are the
    parameters `newId` and `now`. */
module AttendeeService {
  import opened Wrappers
  import opened Types
  import opened Sorting
  import opened Platform

  /** Written in two pieces so that the verifier can read its first character,
      which sets it apart from every prefixed failure text. */
  const AlreadyRegistered: string := "You are already registered" + " to attend this event"
  const RegisterFailedPrefix: string := "Failed to register for event: "
  const UnregisterFailedPrefix: string := "Failed to unregister from event: "
  const FetchAttendeesFailedPrefix: string := "Failed to fetch attendees: "
  const FetchAttendingFailedPrefix: string := "Failed to fetch attending events: "

  /** The message `attendEvent` throws for a platform error. */
  function AttendErrorMessage(e: DbError): string {
    if e.code == UniqueViolation then AlreadyRegistered else RegisterFailedPrefix + e.message
  }

  /** The duplicate-registration text is reported for code `23505` and for no
      other error, whatever the other error's message says. */
  lemma AlreadyRegisteredIffUniqueViolation(e: DbError)
    ensures AttendErrorMessage(e) == AlreadyRegistered <==> e.code == UniqueViolation
    ensures e.code != UniqueViolation ==>
      AttendErrorMessage(e)[..|RegisterFailedPrefix|] == RegisterFailedPrefix
      && AttendErrorMessage(e)[|RegisterFailedPrefix|..] == e.message
  {
    if e.code != UniqueViolation {
      assert AttendErrorMessage(e)[0] == RegisterFailedPrefix[0] == 'F';
      assert AlreadyRegistered[0] == 'Y';
    }
  }

  /** `attendEvent`: insert one attendance row and return it. */
  method AttendEvent(b: Backend, data: AttendEventData, newId: string, now: string, reply: Reply)
    returns (r: Result<EventAttendee, string>)
    requires b.Valid()
    modifies b`attendees
    ensures b.Valid()
    ensures r.Ok? <==> reply.Succeeds? && !HasPair(old(b.attendees), data.eventId, data.userId)
    ensures r.Ok? ==> r.value == EventAttendee(newId, data.eventId, data.userId, data.userEmail, now, now)
    ensures r.Ok? ==> b.attendees == old(b.attendees) + [r.value]
    ensures reply.Fails? ==> r == Err(AttendErrorMessage(reply.error))
    ensures reply.Succeeds? && HasPair(old(b.attendees), data.eventId, data.userId) ==> r == Err(AlreadyRegistered)
    ensures r.Err? ==> b.attendees == old(b.attendees)
  {
    var inserted := b.InsertAttendee(data, newId, now, reply);
    if inserted.Err? {
      r := Err(AttendErrorMessage(inserted.error));
      return;
    }
    r := Ok(inserted.value);
  }

  /** `unattendEvent`: delete every row of the pair; finding none is not an error. */
  method UnattendEvent(b: Backend, eventId: int, userId: string, reply: Reply) returns (r: Result<(), string>)
    requires b.Valid()
    modifies b`attendees
    ensures b.Valid()
    ensures r.Ok? <==> reply.Succeeds?
    ensures r.Ok? ==> b.attendees == WithoutPair(old(b.attendees), eventId, userId)
    ensures r.Err? ==> b.attendees == old(b.attendees) && r.error == UnregisterFailedPrefix + reply.error.message
  {
    var err := b.DeleteAttendees(eventId, userId, reply);
    if err.Some? {
      r := Err(UnregisterFailedPrefix + err.value.message);
      return;
    }
    r := Ok(());
  }

  /** Unregistering keeps exactly the rows of other pairs. */
  lemma UnattendRemovesExactlyThePair(attendees: seq<EventAttendee>, eventId: int, userId: string)
    ensures forall a :: a in WithoutPair(attendees, eventId, userId) <==> a in attendees && !IsPair(a, eventId, userId)
    ensures !HasPair(WithoutPair(attendees, eventId, userId), eventId, userId)
  {
    forall a ensures a in WithoutPair(attendees, eventId, userId) <==> a in attendees && !IsPair(a, eventId, userId) {
      FilterMembership(attendees, (x: EventAttendee) => !IsPair(x, eventId, userId), a);
    }
  }

  /** `checkUserAttendance`: whether a row of the pair exists; a failed query
      is caught and answers false. */
  function CheckUserAttendance(attendees: seq<EventAttendee>, eventId: int, userId: string, reply: Reply): (attending: bool)
    ensures attending <==> reply.Succeeds? && HasPair(attendees, eventId, userId)
  {
    if reply.Fails? then false
    else |PairRows(attendees, eventId, userId)| > 0
  }

  /** After a registration goes through, the check for that pair answers true. */
  lemma CheckAfterAttend(attendees: seq<EventAttendee>, data: AttendEventData, row: EventAttendee)
    requires row.eventId == data.eventId && row.userId == data.userId
    ensures CheckUserAttendance(attendees + [row], data.eventId, data.userId, Succeeds)
  {
    assert IsPair((attendees + [row])[|attendees|], data.eventId, data.userId);
  }

  /** After unregistering a pair, the check for that pair answers false. */
  lemma CheckAfterUnattend(attendees: seq<EventAttendee>, eventId: int, userId: string, reply: Reply)
    ensures !CheckUserAttendance(WithoutPair(attendees, eventId, userId), eventId, userId, reply)
  {
    UnattendRemovesExactlyThePair(attendees, eventId, userId);
  }

  /** `getUserAttendingEvents`: the user's rows, most recent attendance first. */
  function GetUserAttendingEvents(attendees: seq<EventAttendee>, userId: string, reply: Reply)
    : (r: Result<seq<EventAttendee>, string>)
    ensures reply.Fails? ==> r == Err(FetchAttendingFailedPrefix + reply.error.message)
    ensures reply.Succeeds? ==> r.Ok? && SortedBy(r.value, AttendedAtOf, true)
    ensures r.Ok? ==> forall a :: a in r.value <==> a in attendees && a.userId == userId
  {
    if reply.Fails? then Err(FetchAttendingFailedPrefix + reply.error.message)
    else
      var rows := AttendeesOfUser(attendees, userId);
      assert forall a :: a in rows <==> multiset(rows)[a] > 0;
      Ok(rows)
  }

  /** `getEventAttendees`: the event's rows, earliest attendance first. */
  function GetEventAttendees(attendees: seq<EventAttendee>, eventId: int, reply: Reply)
    : (r: Result<seq<EventAttendee>, string>)
    ensures reply.Fails? ==> r == Err(FetchAttendeesFailedPrefix + reply.error.message)
    ensures reply.Succeeds? ==> r.Ok? && SortedBy(r.value, AttendedAtOf, false)
    ensures r.Ok? ==> forall a :: a in r.value <==> a in attendees && a.eventId == eventId
  {
    if reply.Fails? then Err(FetchAttendeesFailedPrefix + reply.error.message)
    else
      var rows := AttendeesOfEvent(attendees, eventId);
      assert forall a :: a in rows <==> multiset(rows)[a] > 0;
      Ok(rows)
  }
}
