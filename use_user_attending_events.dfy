/** The attending-events hook (src/hooks/useUserAttendingEvents.ts): the
    signed-in user's registrations joined onto the events they name. The
    tables and the platform's answers to the two queries are the parameters
    of a fetch; `userId` is the hook's argument. */
module UseUserAttendingEvents {
  import opened Wrappers
  import opened Types
  import opened Sorting
  import opened Platform
  import opened AttendeeService

  /** `AttendingEvent`: an event row with the time the user registered. */
  datatype AttendingEvent = AttendingEvent(event: Event, attendedAt: string)

  /** `attendeeRecords.map(record => record.event_id)` */
  function EventIdsOf(records: seq<EventAttendee>): (ids: seq<int>)
    ensures |ids| == |records|
    ensures forall i :: 0 <= i < |records| ==> ids[i] == records[i].eventId
  {
    if records == [] then [] else [records[0].eventId] + EventIdsOf(records[1..])
  }

  /** The position `attendeeRecords.find(record => record.event_id === id)` stops at. */
  function FirstRecordFor(records: seq<EventAttendee>, eventId: int): (r: Option<nat>)
    ensures r.Some? ==> r.value < |records| && records[r.value].eventId == eventId
    ensures r.Some? ==> forall j :: 0 <= j < r.value ==> records[j].eventId != eventId
    ensures r.None? ==> forall j :: 0 <= j < |records| ==> records[j].eventId != eventId
  {
    if records == [] then None
    else if records[0].eventId == eventId then Some(0)
    else match FirstRecordFor(records[1..], eventId)
      case None => None
      case Some(i) => Some(i + 1)
  }

  /** `attendeeRecord?.attended_at || ''` */
  function AttendedAtFor(records: seq<EventAttendee>, eventId: int): string {
    match FirstRecordFor(records, eventId)
    case None => ""
    case Some(i) => records[i].attendedAt
  }

  /** `events.map(event => ({ ...event, attended_at: … }))`: one entry per
      fetched event, in the fetched order. */
  function WithAttendance(events: seq<Event>, records: seq<EventAttendee>): (r: seq<AttendingEvent>)
    ensures |r| == |events|
    ensures forall i :: 0 <= i < |events| ==> r[i] == AttendingEvent(events[i], AttendedAtFor(records, events[i].id))
  {
    if events == [] then []
    else [AttendingEvent(events[0], AttendedAtFor(records, events[0].id))] + WithAttendance(events[1..], records)
  }

  /** What a completed fetch shows for the given attendance records. */
  function JoinedEvents(table: seq<Event>, records: seq<EventAttendee>): seq<AttendingEvent> {
    WithAttendance(EventsWithIdsByDate(table, EventIdsOf(records)), records)
  }

  ghost predicate ByEventDate(r: seq<AttendingEvent>) {
    forall i, j :: 0 <= i < j < |r| ==> LexLe(r[i].event.date, r[j].event.date)
  }

  class AttendingEventsHook {
    /** The hook's argument; `undefined` is `None`. */
    const userId: Option<string>
    var attendingEvents: seq<AttendingEvent>
    var loading: bool
    var error: Option<string>
    var refreshTrigger: nat

    constructor (userId: Option<string>)
      ensures this.userId == userId
      ensures attendingEvents == [] && loading && error == None && refreshTrigger == 0
    {
      this.userId := userId;
      attendingEvents, loading, error, refreshTrigger := [], true, None, 0;
    }

    /** `!userId`: absent or the empty string. */
    predicate NoUser()
      reads this
    {
      userId.None? || userId.value == []
    }

    /** `fetchAttendingEvents`: read the user's records, stop early when there
        are none, otherwise fetch the events they name and join the two. */
    method FetchAttendingEvents(attendees: seq<EventAttendee>, table: seq<Event>,
                                recordsReply: Reply, eventsReply: Reply)
      modifies this`attendingEvents, this`loading, this`error
      ensures !loading
      ensures NoUser() ==> attendingEvents == [] && error == old(error)
      ensures !NoUser() ==>
        var records := GetUserAttendingEvents(attendees, userId.value, recordsReply);
        if records.Err? then
          error == Some(records.error) && attendingEvents == old(attendingEvents)
        else if records.value == [] then
          error == None && attendingEvents == []
        else if eventsReply.Fails? then
          error == Some(Describe(RawThrown(eventsReply.error))) && attendingEvents == old(attendingEvents)
        else
          error == None && attendingEvents == JoinedEvents(table, records.value)
    {
      if NoUser() {
        attendingEvents := [];
        loading := false;
        return;
      }
      loading := true;
      error := None;
      var records := GetUserAttendingEvents(attendees, userId.value, recordsReply);
      if records.Err? {
        error := Some(records.error);
        loading := false;
        return;
      }
      if records.value == [] {
        attendingEvents := [];
        loading := false;
        return;
      }
      var eventIds := EventIdsOf(records.value);
      if eventsReply.Fails? {
        error := Some(Describe(RawThrown(eventsReply.error)));
        loading := false;
        return;
      }
      var events := EventsWithIdsByDate(table, eventIds);
      attendingEvents := WithAttendance(events, records.value);
      loading := false;
    }

    /** `refresh`: bump the counter the fetch effect depends on. */
    method Refresh()
      modifies this`refreshTrigger
      ensures refreshTrigger == old(refreshTrigger) + 1
    {
      refreshTrigger := refreshTrigger + 1;
    }
  }

  /** Every joined event is a row of the table that one of the records names,
      and it carries the attendance time of the first such record. */
  lemma JoinedEventsAreAttended(table: seq<Event>, records: seq<EventAttendee>)
    ensures forall i :: 0 <= i < |JoinedEvents(table, records)| ==>
      var a := JoinedEvents(table, records)[i];
      && a.event in table
      && a.event.id in EventIdsOf(records)
      && FirstRecordFor(records, a.event.id).Some?
      && a.attendedAt == records[FirstRecordFor(records, a.event.id).value].attendedAt
  {
    var ids := EventIdsOf(records);
    var fetched := EventsWithIdsByDate(table, ids);
    var r := JoinedEvents(table, records);
    forall i | 0 <= i < |r|
      ensures r[i].event in table && r[i].event.id in ids
      ensures FirstRecordFor(records, r[i].event.id).Some?
    {
      var e := fetched[i];
      assert r[i].event == e;
      assert multiset(fetched)[e] > 0;
      assert e.id in ids && multiset(table)[e] > 0;
      var k :| 0 <= k < |ids| && ids[k] == e.id;
      assert records[k].eventId == e.id;
    }
  }

  /** The joined list is in event-date order, earliest first (not in the order
      of registration). */
  lemma JoinedEventsByDate(table: seq<Event>, records: seq<EventAttendee>)
    ensures ByEventDate(JoinedEvents(table, records))
  {
    var fetched := EventsWithIdsByDate(table, EventIdsOf(records));
    var r := JoinedEvents(table, records);
    forall i, j | 0 <= i < j < |r| ensures LexLe(r[i].event.date, r[j].event.date) {
      assert r[i].event == fetched[i] && r[j].event == fetched[j];
      assert Precedes(DateOf(fetched[i]), DateOf(fetched[j]), false);
    }
  }
}
