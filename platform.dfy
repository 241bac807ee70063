/** The hosted platform as the services see it: an `events` table, an
    `event_attendees` table and the `event-images` blob bucket. Every remote
    call takes a `Reply` that says whether the platform or the network fails
    it; the platform also rejects on its own what its constraints forbid (an
    existing object key, a `.single()` that finds no row, a second attendance
    row for the same pair). Queries are functions of the tables. */
module Platform {
  import opened Wrappers
  import opened Types
  import opened Sorting
  import Strings

  /** The public URL of a stored image: `getPublicUrl(key)` appends `/` and the
      key to the bucket's public address, which is the project's configuration. */
  function PublicUrl(bucketUrl: string, key: string): string {
    bucketUrl + "/" + key
  }

  /** The last `/`-segment of a public URL is the key it was made from, when
      the key holds no `/`. */
  lemma PublicUrlNamesKey(bucketUrl: string, key: string)
    requires '/' !in key
    ensures Strings.LastSegment(PublicUrl(bucketUrl, key), '/') == key
  {
    Strings.LastSegmentAfterSeparator(bucketUrl, '/', key);
  }

  /** Storage refuses an upload to an existing key when `upsert` is false. */
  const DuplicateObject := DbError("409", "The resource already exists", true)
  /** `.single()` on a result that does not hold exactly one row. */
  const NoSingleRow := DbError("PGRST116", "JSON object requested, multiple (or no) rows returned", true)
  /** The PostgreSQL code of a unique-constraint violation. */
  const UniqueViolation: string := "23505"
  const DuplicateAttendance := DbError(UniqueViolation, "duplicate key value violates unique constraint", true)

  function IdOf(e: Event): int { e.id }

  /** The primary key of `events`. */
  ghost predicate UniqueIds(events: seq<Event>) {
    DistinctBy(events, IdOf)
  }

  function PairOf(a: EventAttendee): (int, string) { (a.eventId, a.userId) }

  predicate IsPair(a: EventAttendee, eventId: int, userId: string) {
    a.eventId == eventId && a.userId == userId
  }

  /** The table constraint: no two attendance rows share (event_id, user_id). */
  ghost predicate UniquePairs(attendees: seq<EventAttendee>) {
    DistinctBy(attendees, PairOf)
  }

  /** The rows `delete().eq('id', id)` leaves. */
  function WithoutId(events: seq<Event>, id: int): seq<Event> {
    Filter(events, (e: Event) => e.id != id)
  }

  /** The rows `delete().eq('event_id', eventId).eq('user_id', userId)` leaves. */
  function WithoutPair(attendees: seq<EventAttendee>, eventId: int, userId: string): seq<EventAttendee> {
    Filter(attendees, (a: EventAttendee) => !IsPair(a, eventId, userId))
  }

  predicate HasPair(attendees: seq<EventAttendee>, eventId: int, userId: string) {
    exists i :: 0 <= i < |attendees| && IsPair(attendees[i], eventId, userId)
  }

  /** The position of the row with the given id. */
  function IndexOfId(events: seq<Event>, id: int): (r: Option<nat>)
    ensures r.Some? ==> r.value < |events| && events[r.value].id == id
    ensures r.None? ==> forall i :: 0 <= i < |events| ==> events[i].id != id
  {
    if events == [] then None
    else if events[0].id == id then Some(0)
    else match IndexOfId(events[1..], id)
      case None => None
      case Some(i) => Some(i + 1)
  }

  /** The values an `update` writes: the text columns, `updated_at`, and `image`
      only when the patch carries one. */
  datatype EventPatch = EventPatch(fields: EventFields, updatedAt: string, image: Option<string>)

  function Patched(e: Event, p: EventPatch): Event {
    e.(title := p.fields.title, date := p.fields.date, time := p.fields.time,
       venue := p.fields.venue, description := p.fields.description,
       organizer := p.fields.organizer, category := p.fields.category,
       phone := p.fields.phone, email := p.fields.email,
       updatedAt := p.updatedAt, image := p.image.GetOr(e.image))
  }

  function CreatedAtOf(e: Event): string { e.createdAt }
  function DateOf(e: Event): string { e.date }
  function AttendedAtOf(a: EventAttendee): string { a.attendedAt }

  /** `select('*').order('created_at', { ascending: false })`: every row, newest first. */
  function EventsNewestFirst(events: seq<Event>): (r: seq<Event>)
    ensures SortedBy(r, CreatedAtOf, true) && multiset(r) == multiset(events)
  {
    SortBy(events, CreatedAtOf, true)
  }

  /** `select('*').in('id', ids).order('date', { ascending: true })`: the rows
      whose id is listed, earliest date first. */
  function EventsWithIdsByDate(events: seq<Event>, ids: seq<int>): (r: seq<Event>)
    ensures SortedBy(r, DateOf, false)
    ensures forall e :: multiset(r)[e] == if e.id in ids then multiset(events)[e] else 0
  {
    var p := (e: Event) => e.id in ids;
    var kept := Filter(events, p);
    assert forall e :: p(e) == (e.id in ids);
    SortBy(kept, DateOf, false)
  }

  /** `select('*').eq('user_id', userId).order('attended_at', { ascending: false })`:
      the user's rows, most recent attendance first. */
  function AttendeesOfUser(attendees: seq<EventAttendee>, userId: string): (r: seq<EventAttendee>)
    ensures SortedBy(r, AttendedAtOf, true)
    ensures forall a :: multiset(r)[a] == if a.userId == userId then multiset(attendees)[a] else 0
  {
    var p := (a: EventAttendee) => a.userId == userId;
    var kept := Filter(attendees, p);
    assert forall a :: p(a) == (a.userId == userId);
    SortBy(kept, AttendedAtOf, true)
  }

  /** `select('*').eq('event_id', eventId).order('attended_at', { ascending: true })`:
      the event's rows, earliest attendance first. */
  function AttendeesOfEvent(attendees: seq<EventAttendee>, eventId: int): (r: seq<EventAttendee>)
    ensures SortedBy(r, AttendedAtOf, false)
    ensures forall a :: multiset(r)[a] == if a.eventId == eventId then multiset(attendees)[a] else 0
  {
    var p := (a: EventAttendee) => a.eventId == eventId;
    var kept := Filter(attendees, p);
    assert forall a :: p(a) == (a.eventId == eventId);
    SortBy(kept, AttendedAtOf, false)
  }

  /** `select('id').eq('event_id', eventId).eq('user_id', userId).limit(1)` */
  function PairRows(attendees: seq<EventAttendee>, eventId: int, userId: string): (rows: seq<EventAttendee>)
    ensures |rows| <= 1
    ensures |rows| == 1 <==> HasPair(attendees, eventId, userId)
  {
    var all := Filter(attendees, (a: EventAttendee) => IsPair(a, eventId, userId));
    if HasPair(attendees, eventId, userId) then
      var i :| 0 <= i < |attendees| && IsPair(attendees[i], eventId, userId);
      FilterMembership(attendees, (a: EventAttendee) => IsPair(a, eventId, userId), attendees[i]);
      all[..1]
    else
      assert all == [] by {
        if all != [] {
          FilterMembership(attendees, (a: EventAttendee) => IsPair(a, eventId, userId), all[0]);
        }
      }
      []
  }

  class Backend {
    var events: seq<Event>
    var attendees: seq<EventAttendee>
    var blobs: set<string>
    /** The next value of the `events.id` identity sequence. */
    var nextEventId: int
    /** The public address of the `event-images` bucket. */
    const bucketUrl: string

    ghost predicate Valid()
      reads this
    {
      && UniqueIds(events)
      && (forall i :: 0 <= i < |events| ==> events[i].id < nextEventId)
      && UniquePairs(attendees)
    }

    constructor (bucketUrl: string)
      ensures Valid()
      ensures events == [] && attendees == [] && blobs == {} && this.bucketUrl == bucketUrl
    {
      events, attendees, blobs, nextEventId := [], [], {}, 1;
      this.bucketUrl := bucketUrl;
    }

    /** `storage.from('event-images').upload(key, file, { upsert: false })` */
    method Upload(key: string, reply: Reply) returns (err: Option<DbError>)
      requires Valid()
      modifies this`blobs
      ensures Valid()
      ensures err.None? <==> reply.Succeeds? && key !in old(blobs)
      ensures err.None? ==> blobs == old(blobs) + {key}
      ensures err.Some? ==> blobs == old(blobs)
      ensures err.Some? ==> err.value == if reply.Fails? then reply.error else DuplicateObject
    {
      if reply.Fails? {
        err := Some(reply.error);
      } else if key in blobs {
        err := Some(DuplicateObject);
      } else {
        blobs := blobs + {key};
        err := None;
      }
    }

    /** `storage.from('event-images').remove([key])`: removing a missing key is not an error. */
    method Remove(key: string, reply: Reply) returns (err: Option<DbError>)
      requires Valid()
      modifies this`blobs
      ensures Valid()
      ensures err.None? <==> reply.Succeeds?
      ensures err.None? ==> blobs == old(blobs) - {key}
      ensures err.Some? ==> blobs == old(blobs) && err.value == reply.error
    {
      if reply.Fails? {
        err := Some(reply.error);
      } else {
        blobs := blobs - {key};
        err := None;
      }
    }

    /** `from('events').insert(row).select().single()`: the store assigns the
        id and both timestamps. */
    method InsertEvent(fields: EventFields, image: string, now: string, reply: Reply) returns (r: Result<Event, DbError>)
      requires Valid()
      modifies this`events, this`nextEventId
      ensures Valid()
      ensures reply.Fails? ==> r == Err(reply.error) && events == old(events)
      ensures reply.Succeeds? ==> r.Ok? && events == old(events) + [r.value]
      ensures r.Ok? ==> FieldsOf(r.value) == fields && r.value.image == image
      ensures r.Ok? ==> r.value.createdAt == now && r.value.updatedAt == now
      ensures r.Ok? ==> forall i :: 0 <= i < |old(events)| ==> old(events)[i].id != r.value.id
    {
      if reply.Fails? {
        r := Err(reply.error);
      } else {
        var row := Event(nextEventId, fields.title, fields.description, fields.venue, fields.date,
                         fields.time, fields.category, image, fields.organizer, fields.phone,
                         fields.email, now, now);
        events := events + [row];
        nextEventId := nextEventId + 1;
        r := Ok(row);
      }
    }

    /** `from('events').select('image').eq('id', id).single()` */
    function SelectImage(id: int, reply: Reply): (r: Result<string, DbError>)
      reads this
      ensures reply.Fails? ==> r == Err(reply.error)
      ensures reply.Succeeds? && IndexOfId(events, id).None? ==> r == Err(NoSingleRow)
      ensures r.Ok? ==> exists i :: 0 <= i < |events| && events[i].id == id && events[i].image == r.value
      ensures reply.Succeeds? && IndexOfId(events, id).Some? ==> r == Ok(events[IndexOfId(events, id).value].image)
    {
      if reply.Fails? then Err(reply.error)
      else match IndexOfId(events, id)
        case None => Err(NoSingleRow)
        case Some(i) => Ok(events[i].image)
    }

    /** `from('events').delete().eq('id', id)`: deleting no row is not an error. */
    method DeleteEvent(id: int, reply: Reply) returns (err: Option<DbError>)
      requires Valid()
      modifies this`events
      ensures Valid()
      ensures err.None? <==> reply.Succeeds?
      ensures err.None? ==> events == WithoutId(old(events), id)
      ensures err.Some? ==> events == old(events) && err.value == reply.error
    {
      if reply.Fails? {
        err := Some(reply.error);
      } else {
        var kept := WithoutId(events, id);
        SubsequenceDistinct(kept, events, IdOf);
        events := kept;
        err := None;
      }
    }

    /** `from('events').update(patch).eq('id', id).select().single()` */
    method UpdateEvent(id: int, patch: EventPatch, reply: Reply) returns (r: Result<Event, DbError>)
      requires Valid()
      modifies this`events
      ensures Valid()
      ensures reply.Fails? ==> r == Err(reply.error)
      ensures reply.Succeeds? && IndexOfId(old(events), id).None? ==> r == Err(NoSingleRow)
      ensures r.Err? ==> events == old(events)
      ensures r.Ok? <==> reply.Succeeds? && IndexOfId(old(events), id).Some?
      ensures r.Ok? ==> var i := IndexOfId(old(events), id).value;
        r.value == Patched(old(events)[i], patch) && events == old(events)[i := r.value]
    {
      if reply.Fails? {
        r := Err(reply.error);
        return;
      }
      match IndexOfId(events, id) {
        case None =>
          r := Err(NoSingleRow);
        case Some(i) =>
          var row := Patched(events[i], patch);
          events := events[i := row];
          r := Ok(row);
      }
    }

    /** `from('event_attendees').insert(data).select().single()`, under the
        unique (event_id, user_id) constraint. */
    method InsertAttendee(data: AttendEventData, id: string, now: string, reply: Reply) returns (r: Result<EventAttendee, DbError>)
      requires Valid()
      modifies this`attendees
      ensures Valid()
      ensures reply.Fails? ==> r == Err(reply.error)
      ensures reply.Succeeds? && HasPair(old(attendees), data.eventId, data.userId) ==> r == Err(DuplicateAttendance)
      ensures r.Err? ==> attendees == old(attendees)
      ensures r.Ok? <==> reply.Succeeds? && !HasPair(old(attendees), data.eventId, data.userId)
      ensures r.Ok? ==> r.value == EventAttendee(id, data.eventId, data.userId, data.userEmail, now, now)
      ensures r.Ok? ==> attendees == old(attendees) + [r.value]
    {
      if reply.Fails? {
        r := Err(reply.error);
      } else if HasPair(attendees, data.eventId, data.userId) {
        r := Err(DuplicateAttendance);
      } else {
        var row := EventAttendee(id, data.eventId, data.userId, data.userEmail, now, now);
        attendees := attendees + [row];
        r := Ok(row);
      }
    }

    /** `from('event_attendees').delete().eq('event_id', eventId).eq('user_id', userId)` */
    method DeleteAttendees(eventId: int, userId: string, reply: Reply) returns (err: Option<DbError>)
      requires Valid()
      modifies this`attendees
      ensures Valid()
      ensures err.None? <==> reply.Succeeds?
      ensures err.None? ==> attendees == WithoutPair(old(attendees), eventId, userId)
      ensures err.Some? ==> attendees == old(attendees) && err.value == reply.error
    {
      if reply.Fails? {
        err := Some(reply.error);
      } else {
        var kept := WithoutPair(attendees, eventId, userId);
        SubsequenceDistinct(kept, attendees, PairOf);
        attendees := kept;
        err := None;
      }
    }
  }
}
