/** The events list hook (src/hooks/useEvents.ts): the `events`, `loading` and
    `error` state of the page and the fetch that refreshes them. The rows the
    platform holds and its answer are the parameters of a fetch. */
module UseEvents {
  import opened Wrappers
  import opened Types
  import opened Sorting
  import opened Platform

  class EventsHook {
    var events: seq<Event>
    var loading: bool
    /** `null` is `None`. */
    var error: Option<string>

    /** The state before the first fetch completes. */
    constructor ()
      ensures events == [] && loading && error == None
    {
      events, loading, error := [], true, None;
    }

    /** The first two steps of `fetchEvents`. */
    method BeginFetch()
      modifies this`loading, this`error
      ensures loading && error == None
    {
      loading := true;
      error := None;
    }

    /** The rest of `fetchEvents`: take the rows newest first, or record the
        error, and stop loading in either case. */
    method CompleteFetch(table: seq<Event>, reply: Reply)
      modifies this`events, this`error, this`loading
      ensures !loading
      ensures reply.Succeeds? ==> events == EventsNewestFirst(table) && error == old(error)
      ensures reply.Fails? ==> events == old(events) && error == Some(Describe(RawThrown(reply.error)))
    {
      if reply.Fails? {
        error := Some(Describe(RawThrown(reply.error)));
      } else {
        events := EventsNewestFirst(table);
      }
      loading := false;
    }

    /** `fetchEvents` as a whole. */
    method FetchEvents(table: seq<Event>, reply: Reply)
      modifies this`events, this`error, this`loading
      ensures !loading
      ensures reply.Succeeds? ==> events == EventsNewestFirst(table) && error == None
      ensures reply.Fails? ==> events == old(events) && error == Some(Describe(RawThrown(reply.error)))
    {
      BeginFetch();
      CompleteFetch(table, reply);
    }
  }
}
