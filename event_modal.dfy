/** The event detail modal (src/components/EventModal.tsx): which action
    buttons it shows, the attend/leave toggle, the owner's delete, the check
    of the user's attendance when it opens, and the category badge colour. */
module EventModal {
  import opened Wrappers
  import opened Types
  import opened Platform
  import opened CategoryColors
  import EventService
  import AttendeeService

  /** The action buttons appear only in an open modal that is not loading and
      has an event to show. */
  predicate ShowsEvent(isOpen: bool, isLoading: bool, eventData: Option<Event>) {
    isOpen && !isLoading && eventData.Some?
  }

  /** The owner's Delete and Edit buttons: a signed-in user whose e-mail is
      the event's. */
  predicate ShowsOwnerControls(isOpen: bool, isLoading: bool, isAuthenticated: bool, user: Option<User>,
                               eventData: Option<Event>) {
    ShowsEvent(isOpen, isLoading, eventData)
    && isAuthenticated && user.Some? && user.value.email == Some(eventData.value.email)
  }

  /** The Attend button: a signed-in user whose e-mail differs from the
      event's, or who has none. */
  predicate ShowsAttendButton(isOpen: bool, isLoading: bool, isAuthenticated: bool, user: Option<User>,
                              eventData: Option<Event>) {
    ShowsEvent(isOpen, isLoading, eventData)
    && isAuthenticated && user.Some? && user.value.email != Some(eventData.value.email)
  }

  /** The Join to Attend button: nobody signed in, and a handler supplied. */
  predicate ShowsJoinToAttend(isOpen: bool, isLoading: bool, isAuthenticated: bool, eventData: Option<Event>,
                              hasJoinHandler: bool) {
    ShowsEvent(isOpen, isLoading, eventData) && !isAuthenticated && hasJoinHandler
  }

  /** Whenever an event is shown to a signed-in user, exactly one of owner
      controls and Attend appears; Join to Attend never appears beside either,
      and only for a visitor when the handler is there. A closed or loading
      modal shows none of them. The authentication hook sets
      `isAuthenticated` exactly when there is a user; the lemma holds for
      every combination of the two, so it assumes nothing about that link. */
  lemma ButtonsExclusive(isOpen: bool, isLoading: bool, isAuthenticated: bool, user: Option<User>,
                         eventData: Option<Event>, hasJoinHandler: bool)
    ensures !(ShowsOwnerControls(isOpen, isLoading, isAuthenticated, user, eventData)
              && ShowsAttendButton(isOpen, isLoading, isAuthenticated, user, eventData))
    ensures ShowsEvent(isOpen, isLoading, eventData) && isAuthenticated && user.Some? ==>
      ShowsOwnerControls(isOpen, isLoading, isAuthenticated, user, eventData)
      || ShowsAttendButton(isOpen, isLoading, isAuthenticated, user, eventData)
    ensures ShowsJoinToAttend(isOpen, isLoading, isAuthenticated, eventData, hasJoinHandler) ==>
      !isAuthenticated && hasJoinHandler
      && !ShowsOwnerControls(isOpen, isLoading, isAuthenticated, user, eventData)
      && !ShowsAttendButton(isOpen, isLoading, isAuthenticated, user, eventData)
    ensures user.Some? && user.value.email.None? ==>
      !ShowsOwnerControls(isOpen, isLoading, isAuthenticated, user, eventData)
    ensures !ShowsEvent(isOpen, isLoading, eventData) ==>
      && !ShowsOwnerControls(isOpen, isLoading, isAuthenticated, user, eventData)
      && !ShowsAttendButton(isOpen, isLoading, isAuthenticated, user, eventData)
      && !ShowsJoinToAttend(isOpen, isLoading, isAuthenticated, eventData, hasJoinHandler)
  {
  }

  /** The badge classes of the modal, genre by genre. */
  const ModalClasses: seq<string> := [
    "bg-red-500/20 text-red-400 border-red-500/30",
    "bg-blue-500/20 text-blue-400 border-blue-500/30",
    "bg-purple-500/20 text-purple-400 border-purple-500/30",
    "bg-green-500/20 text-green-400 border-green-500/30",
    "bg-orange-500/20 text-orange-400 border-orange-500/30",
    "bg-yellow-500/20 text-yellow-400 border-yellow-500/30"]

  const ModalFallback: string := "bg-purple-500/20 text-purple-400 border-purple-500/30"

  /** `getCategoryColor` of the modal. */
  function GetCategoryColor(category: string): (c: string)
    ensures category !in Categories ==> c == ModalFallback
  {
    CategoryColor(GenreTable(ModalClasses), ModalFallback, category)
  }

  /** Each genre gets the classes written beside it. */
  lemma CategoryColorTable(i: nat)
    requires i < |Categories|
    ensures GetCategoryColor(Categories[i]) == ModalClasses[i]
  {
    GenreProperty(ModalClasses, i);
    assert |ModalClasses[i]| > 0;
  }

  /** Any other category gets the purple fallback, the classes of Electronic. */
  lemma UnknownCategoryColor(category: string)
    requires category !in Categories
    ensures GetCategoryColor(category) == ModalFallback == GetCategoryColor("Electronic")
  {
    CategoryColorTable(2);
  }

  const DeleteFailedAlert: string := "Failed to delete event. Please try again."

  class Modal {
    var isDeleting: bool
    var isAttending: bool
    var userIsAttending: bool
    var checkingAttendance: bool

    constructor ()
      ensures !isDeleting && !isAttending && !userIsAttending && !checkingAttendance
    {
      isDeleting, isAttending, userIsAttending, checkingAttendance := false, false, false, false;
    }

    /** The effect that asks `checkUserAttendance` when the modal is open with
        an event, a user and an authenticated session; otherwise nothing
        happens. `reply` is the answer of the attendance query. */
    method CheckAttendance(b: Backend, isOpen: bool, eventData: Option<Event>, user: Option<User>,
                           isAuthenticated: bool, reply: Reply)
      modifies this`userIsAttending, this`checkingAttendance
      ensures isOpen && eventData.Some? && user.Some? && isAuthenticated ==>
        && userIsAttending == AttendeeService.CheckUserAttendance(b.attendees, eventData.value.id, user.value.id, reply)
        && !checkingAttendance
      ensures !(isOpen && eventData.Some? && user.Some? && isAuthenticated) ==>
        userIsAttending == old(userIsAttending) && checkingAttendance == old(checkingAttendance)
    {
      if isOpen && eventData.Some? && user.Some? && isAuthenticated {
        checkingAttendance := true;
        userIsAttending := AttendeeService.CheckUserAttendance(b.attendees, eventData.value.id, user.value.id, reply);
        checkingAttendance := false;
      }
    }

    /** `handleAttendEvent`: leave the event when the user attends it, join it
        otherwise (with an empty e-mail when the user has none). Only a call
        that goes through flips `userIsAttending` and notifies the parent
        (`notified`); a failure yields the message shown in the alert.
        Without an event or a user nothing happens. `newId` and `now` are what
        the store assigns to a new registration, `reply` its answer. */
    method HandleAttendEvent(b: Backend, eventData: Option<Event>, user: Option<User>,
                             newId: string, now: string, reply: Reply)
      returns (notified: bool, alert: Option<string>)
      requires b.Valid()
      modifies this`isAttending, this`userIsAttending, b`attendees
      ensures b.Valid()
      ensures eventData.None? || user.None? ==>
        && !notified && alert.None? && b.attendees == old(b.attendees)
        && isAttending == old(isAttending) && userIsAttending == old(userIsAttending)
      ensures eventData.Some? && user.Some? ==> !isAttending && (notified <==> alert.None?)
      ensures !notified ==> userIsAttending == old(userIsAttending) && b.attendees == old(b.attendees)
      ensures eventData.Some? && user.Some? && old(userIsAttending) ==> (notified <==> reply.Succeeds?)
      ensures notified && old(userIsAttending) ==>
        !userIsAttending && b.attendees == WithoutPair(old(b.attendees), eventData.value.id, user.value.id)
      ensures eventData.Some? && user.Some? && !old(userIsAttending) ==>
        (notified <==> reply.Succeeds? && !HasPair(old(b.attendees), eventData.value.id, user.value.id))
      ensures eventData.Some? && user.Some? && old(userIsAttending) && reply.Fails? ==>
        alert == Some(AttendeeService.UnregisterFailedPrefix + reply.error.message)
      ensures eventData.Some? && user.Some? && !old(userIsAttending) && reply.Fails? ==>
        alert == Some(AttendeeService.AttendErrorMessage(reply.error))
      ensures eventData.Some? && user.Some? && !old(userIsAttending) && reply.Succeeds?
              && HasPair(old(b.attendees), eventData.value.id, user.value.id) ==>
        alert == Some(AttendeeService.AlreadyRegistered)
      ensures notified && !old(userIsAttending) ==>
        && userIsAttending
        && b.attendees == old(b.attendees) + [EventAttendee(newId, eventData.value.id, user.value.id,
                                                           user.value.email.GetOr([]), now, now)]
    {
      if eventData.None? || user.None? {
        notified, alert := false, None;
        return;
      }
      var event, u := eventData.value, user.value;
      isAttending := true;
      if userIsAttending {
        var r := AttendeeService.UnattendEvent(b, event.id, u.id, reply);
        if r.Ok? {
          userIsAttending := false;
          notified, alert := true, None;
        } else {
          notified, alert := false, Some(r.error);
        }
      } else {
        var data := AttendEventData(event.id, u.id, u.email.GetOr([]));
        var r := AttendeeService.AttendEvent(b, data, newId, now, reply);
        if r.Ok? {
          userIsAttending := true;
          notified, alert := true, None;
        } else {
          notified, alert := false, Some(r.error);
        }
      }
      isAttending := false;
    }

    /** `handleDeleteEvent`: with an event and the user's confirmation, call
        `deleteEvent`; only its success closes the modal and notifies the
        parent (`deleted`), and a failure raises the fixed alert. `confirmed`
        is the answer to the confirmation dialog. */
    method HandleDeleteEvent(b: Backend, eventData: Option<Event>, confirmed: bool,
                             fetch: Reply, delete: Reply, cleanup: Reply)
      returns (deleted: bool, alert: Option<string>)
      requires b.Valid()
      modifies this`isDeleting, b
      ensures b.Valid() && b.attendees == old(b.attendees)
      ensures eventData.None? || !confirmed ==>
        && !deleted && alert.None? && isDeleting == old(isDeleting)
        && b.events == old(b.events) && b.blobs == old(b.blobs)
      ensures eventData.Some? && confirmed ==>
        && !isDeleting
        && (deleted <==> old(b.SelectImage(eventData.value.id, fetch)).Ok? && delete.Succeeds?)
        && (deleted <==> alert.None?)
        && (!deleted ==> alert == Some(DeleteFailedAlert) && b.events == old(b.events) && b.blobs == old(b.blobs))
        && (deleted ==> b.events == WithoutId(old(b.events), eventData.value.id))
    {
      if eventData.None? || !confirmed {
        deleted, alert := false, None;
        return;
      }
      isDeleting := true;
      var r := EventService.DeleteEvent(b, eventData.value.id, fetch, delete, cleanup);
      if r.Ok? {
        deleted, alert := true, None;
      } else {
        deleted, alert := false, Some(DeleteFailedAlert);
      }
      isDeleting := false;
    }
  }
}
