/** The request handlers, as operations on an in-memory store of the three
    tables. Handlers that write (register, unregister, create, edit, delete)
    are methods of the store; handlers that only read (home, detail,
    dashboard, my events, event registrations) are functions of it. The
    caller's identity, the request method, the form's validity and the
    current time are parameters. */
module Views {
  import opened Collections
  import opened Models

  /** Who sends the request. */
  datatype Caller = Anonymous | Authenticated(user: User)

  /** The flash message a handler queues before it redirects. */
  datatype Flash = NoFlash | Success | Warning | Error

  /** The pages a handler redirects to. */
  datatype Target = LoginPage | HomePage | DashboardPage | MyEventsPage | EventDetailPage(eventId: nat)

  /** What a handler answers: a page rendered from a view-model, a redirect, or not found. */
  datatype Response<T> = Rendered(view: T) | Redirect(to: Target, flash: Flash) | NotFound

  /** A request to a form handler: a GET, a POST whose form does not
      validate, or a POST with validated fields. */
  datatype EventRequest = Get | InvalidPost | ValidPost(fields: EventFields)

  /** The view-model of the event detail page. */
  datatype Detail = Detail(event: Event, isRegistered: bool)

  /** What login_required answers an anonymous caller. */
  function LoginRedirect<T>(): Response<T> {
    Redirect(LoginPage, NoFlash)
  }

  /** Staff or superuser: may create events and sees the organizer dashboard. */
  predicate IsOrganizer(u: User) {
    u.isStaff || u.isSuperuser
  }

  /** Only a plain student may register for an event. */
  predicate CanRegister(u: User) {
    !IsOrganizer(u)
  }

  /** A superuser, or the event's own organizer, may edit it, delete it and see its registrations. */
  predicate CanManage(u: User, e: Event) {
    u.isSuperuser || e.organizer == u.id
  }

  class Store {
    var users: map<nat, User>
    var events: map<nat, Event>
    var registrations: seq<Registration>
    var nextEventId: nat

    /** The schema's constraints: rows sit under their ids, event ids come
        from the counter, foreign keys resolve, (student, event) is unique. */
    ghost predicate Valid()
      reads this
    {
      && (forall k :: k in users ==> users[k].id == k)
      && KeysAreIds(events)
      && (forall k :: k in events ==> k < nextEventId)
      && ForeignKeysHold(users, events, registrations)
      && UniqueTogether(registrations)
    }

    /** The caller is authenticated and may manage the stored event `eventId`. */
    predicate MayManage(caller: Caller, eventId: nat)
      reads this
    {
      caller.Authenticated? && eventId in events && CanManage(caller.user, events[eventId])
    }

    /** The authenticated caller is a row of the user table. */
    predicate Known(caller: Caller)
      reads this
    {
      caller.Authenticated? ==> caller.user.id in users && users[caller.user.id] == caller.user
    }

    /** An empty store over the user table the authentication subsystem holds. */
    constructor (users: map<nat, User>)
      requires forall k :: k in users ==> users[k].id == k
      ensures Valid()
      ensures this.users == users && events == map[] && registrations == [] && nextEventId == 1
    {
      this.users := users;
      events := map[];
      registrations := [];
      nextEventId := 1;
    }

    // --- Read handlers -------------------------------------------------------

    /** home: every event, latest date first. */
    function Home(): (r: seq<Event>)
      requires Valid()
      reads this
      ensures SortedDesc(r, DateOf)
      ensures forall e :: multiset(r)[e] == if Stored(events, e) then 1 else 0
    {
      EventsByDate(Rows(events, nextEventId))
    }

    /** event_detail: the event, and whether the authenticated caller holds a registration for it. */
    function EventDetail(caller: Caller, eventId: nat): (r: Response<Detail>)
      reads this
      ensures r.NotFound? <==> eventId !in events
      ensures r.Rendered? ==> r.view.event == events[eventId]
      ensures r.Rendered? ==>
        (r.view.isRegistered <==> caller.Authenticated? && Registered(registrations, caller.user.id, eventId))
      ensures !r.Redirect?
    {
      if eventId !in events then NotFound
      else
        // Registration.objects.filter(student=..., event=...).exists()
        var isRegistered := caller.Authenticated? && Filter(registrations, OfPair(caller.user.id, eventId)) != [];
        Rendered(Detail(events[eventId], isRegistered))
    }

    /** dashboard: all events for a superuser, the caller's own events for a
        staff member, a redirect to "my events" for a student. */
    function Dashboard(caller: Caller): (r: Response<seq<Event>>)
      requires Valid()
      reads this
      ensures caller.Anonymous? ==> r == LoginRedirect()
      ensures caller.Authenticated? && !IsOrganizer(caller.user) ==> r == Redirect(MyEventsPage, NoFlash)
      ensures caller.Authenticated? && IsOrganizer(caller.user) ==> r.Rendered?
      ensures r.Rendered? ==> SortedDesc(r.view, DateOf)
      ensures r.Rendered? && caller.user.isSuperuser ==>
        forall e :: multiset(r.view)[e] == if Stored(events, e) then 1 else 0
      ensures r.Rendered? && !caller.user.isSuperuser ==>
        forall e :: multiset(r.view)[e] == if Stored(events, e) && e.organizer == caller.user.id then 1 else 0
    {
      if caller.Anonymous? then LoginRedirect()
      else if IsOrganizer(caller.user) then
        if caller.user.isSuperuser then Rendered(Home())
        else Rendered(EventsByDate(Filter(Rows(events, nextEventId), OrganizedBy(caller.user.id))))
      else Redirect(MyEventsPage, NoFlash)
    }

    /** my_events: the caller's registrations, newest first. */
    function MyEvents(caller: Caller): (r: Response<seq<Registration>>)
      reads this
      ensures caller.Anonymous? ==> r == LoginRedirect()
      ensures caller.Authenticated? ==> r.Rendered?
      ensures r.Rendered? ==> SortedDesc(r.view, CreatedAtOf)
      ensures r.Rendered? ==> forall x ::
        multiset(r.view)[x] == if x.student == caller.user.id then multiset(registrations)[x] else 0
    {
      if caller.Anonymous? then LoginRedirect()
      else Rendered(RegistrationsByCreation(Filter(registrations, OfStudent(caller.user.id))))
    }

    /** event_registrations: the registrations of an event, for whoever may manage it. */
    function EventRegistrations(caller: Caller, eventId: nat): (r: Response<seq<Registration>>)
      reads this
      ensures caller.Anonymous? ==> r == LoginRedirect()
      ensures caller.Authenticated? ==> (r.NotFound? <==> eventId !in events)
      ensures caller.Authenticated? && eventId in events && !CanManage(caller.user, events[eventId]) ==>
        r == Redirect(DashboardPage, Error)
      ensures caller.Authenticated? && eventId in events && CanManage(caller.user, events[eventId]) ==>
        r.Rendered?
      ensures r.Rendered? ==> SortedDesc(r.view, CreatedAtOf)
      ensures r.Rendered? ==> forall x ::
        multiset(r.view)[x] == if x.event == eventId then multiset(registrations)[x] else 0
    {
      if caller.Anonymous? then LoginRedirect()
      else if eventId !in events then NotFound
      else if !CanManage(caller.user, events[eventId]) then Redirect(DashboardPage, Error)
      else Rendered(RegistrationsByCreation(Filter(registrations, OfEvent(eventId))))
    }

    /** An organizer's dashboard lists exactly the stored events the caller may
        manage, so every event on it opens on its registrations page (and
        may be edited and deleted), and no other event is listed. */
    lemma DashboardListsManagedEvents(caller: Caller)
      requires Valid() && caller.Authenticated? && IsOrganizer(caller.user)
      ensures Dashboard(caller).Rendered?
      ensures forall e :: e in Dashboard(caller).view <==> Stored(events, e) && MayManage(caller, e.id)
      ensures forall e :: e in Dashboard(caller).view ==> EventRegistrations(caller, e.id).Rendered?
    {
      var view := Dashboard(caller).view;
      forall e
        ensures e in view <==> Stored(events, e) && MayManage(caller, e.id)
      {
        assert e in view <==> multiset(view)[e] > 0;
      }
    }

    // --- Write handlers ------------------------------------------------------

    /** register_for_event: a student not yet registered gains exactly one
        registration; a repeat is a warning; staff and superusers are refused. */
    method RegisterForEvent(caller: Caller, eventId: nat, now: int) returns (r: Response<()>)
      requires Valid() && Known(caller)
      modifies this`registrations
      ensures Valid()
      ensures caller.Anonymous? ==> r == LoginRedirect() && unchanged(this)
      ensures caller.Authenticated? && eventId !in events ==> r == NotFound && unchanged(this)
      ensures caller.Authenticated? && eventId in events && !CanRegister(caller.user) ==>
        r == Redirect(EventDetailPage(eventId), Error) && unchanged(this)
      ensures caller.Authenticated? && eventId in events && CanRegister(caller.user) ==>
        if old(Registered(registrations, caller.user.id, eventId)) then
          r == Redirect(EventDetailPage(eventId), Warning) && unchanged(this)
        else
          r == Redirect(EventDetailPage(eventId), Success) &&
          registrations == old(registrations) + [Registration(caller.user.id, eventId, now)]
      ensures caller.Authenticated? && eventId in events && CanRegister(caller.user) ==>
        Registered(registrations, caller.user.id, eventId)
    {
      if caller.Anonymous? {
        return LoginRedirect();
      }
      if eventId !in events {
        return NotFound;
      }
      if !CanRegister(caller.user) {
        return Redirect(EventDetailPage(eventId), Error);
      }
      if Registered(registrations, caller.user.id, eventId) {
        // the unique constraint refuses the insert
        return Redirect(EventDetailPage(eventId), Warning);
      }
      var row := Registration(caller.user.id, eventId, now);
      AppendKeepsUnique(registrations, row);
      registrations := registrations + [row];
      r := Redirect(EventDetailPage(eventId), Success);
    }

    /** unregister_from_event: deletes the caller's registration for the
        event when there is one; otherwise an error and nothing changes. */
    method UnregisterFromEvent(caller: Caller, eventId: nat) returns (r: Response<()>)
      requires Valid() && Known(caller)
      modifies this`registrations
      ensures Valid()
      ensures caller.Anonymous? ==> r == LoginRedirect() && unchanged(this)
      ensures caller.Authenticated? && eventId !in events ==> r == NotFound && unchanged(this)
      ensures caller.Authenticated? && eventId in events && !old(Registered(registrations, caller.user.id, eventId)) ==>
        r == Redirect(EventDetailPage(eventId), Error) && unchanged(this)
      ensures caller.Authenticated? && eventId in events && old(Registered(registrations, caller.user.id, eventId)) ==>
        && r == Redirect(EventDetailPage(eventId), Success)
        && var row := old(Lookup(registrations, caller.user.id, eventId)).value;
        && registrations == Filter(old(registrations), NotRow(row))
        && multiset(registrations) == old(multiset(registrations)) - multiset{row}
        && |registrations| == old(|registrations|) - 1
        && !Registered(registrations, caller.user.id, eventId)
    {
      if caller.Anonymous? {
        return LoginRedirect();
      }
      if eventId !in events {
        return NotFound;
      }
      var found := Lookup(registrations, caller.user.id, eventId);
      if found.None? {
        return Redirect(EventDetailPage(eventId), Error);
      }
      DeleteRowRemovesPair(registrations, found.value);
      FilterKeepsConstraints(users, events, registrations, NotRow(found.value));
      registrations := Filter(registrations, NotRow(found.value));
      r := Redirect(EventDetailPage(eventId), Success);
    }

    /** create_event: an organizer's valid form adds one event, organized by
        the caller, under a fresh id; nothing else changes. */
    method CreateEvent(caller: Caller, request: EventRequest, now: int) returns (r: Response<()>)
      requires Valid() && Known(caller)
      modifies this`events, this`nextEventId
      ensures Valid()
      ensures caller.Anonymous? ==> r == LoginRedirect() && unchanged(this)
      ensures caller.Authenticated? && !IsOrganizer(caller.user) ==>
        r == Redirect(HomePage, Error) && unchanged(this)
      ensures caller.Authenticated? && IsOrganizer(caller.user) && !request.ValidPost? ==>
        r == Rendered(()) && unchanged(this)
      ensures caller.Authenticated? && IsOrganizer(caller.user) && request.ValidPost? ==>
        && r == Redirect(DashboardPage, Success)
        && old(nextEventId) !in old(events)
        && events == old(events)[old(nextEventId) := NewEvent(old(nextEventId), request.fields, caller.user.id, now)]
        && events[old(nextEventId)].organizer == caller.user.id
        && nextEventId == old(nextEventId) + 1
    {
      if caller.Anonymous? {
        return LoginRedirect();
      }
      if !IsOrganizer(caller.user) {
        return Redirect(HomePage, Error);
      }
      if !request.ValidPost? {
        // a GET shows the empty form; an invalid POST shows it again with errors
        return Rendered(());
      }
      var id := nextEventId;
      events := events[id := NewEvent(id, request.fields, caller.user.id, now)];
      nextEventId := nextEventId + 1;
      r := Redirect(DashboardPage, Success);
    }

    /** edit_event: whoever may manage the event replaces its editable
        fields; id, organizer and creation stamp stay. */
    method EditEvent(caller: Caller, eventId: nat, request: EventRequest, now: int) returns (r: Response<Event>)
      requires Valid() && Known(caller)
      modifies this`events
      ensures Valid()
      ensures caller.Anonymous? ==> r == LoginRedirect() && unchanged(this)
      ensures caller.Authenticated? && eventId !in old(events) ==> r == NotFound && unchanged(this)
      ensures caller.Authenticated? && eventId in old(events) && !CanManage(caller.user, old(events)[eventId]) ==>
        r == Redirect(DashboardPage, Error) && unchanged(this)
      ensures old(MayManage(caller, eventId)) && !request.ValidPost? ==>
        r == Rendered(old(events)[eventId]) && unchanged(this)
      ensures old(MayManage(caller, eventId)) && request.ValidPost? ==>
        && r == Redirect(DashboardPage, Success)
        && events == old(events)[eventId := Edited(old(events)[eventId], request.fields, now)]
    {
      if caller.Anonymous? {
        return LoginRedirect();
      }
      if eventId !in events {
        return NotFound;
      }
      var event := events[eventId];
      if !CanManage(caller.user, event) {
        return Redirect(DashboardPage, Error);
      }
      if !request.ValidPost? {
        return Rendered(event);
      }
      events := events[eventId := Edited(event, request.fields, now)];
      r := Redirect(DashboardPage, Success);
    }

    /** delete_event: a POST by whoever may manage the event deletes it and,
        by cascade, every registration for it; a GET only asks to confirm. */
    method DeleteEvent(caller: Caller, eventId: nat, isPost: bool) returns (r: Response<Event>)
      requires Valid() && Known(caller)
      modifies this`events, this`registrations
      ensures Valid()
      ensures caller.Anonymous? ==> r == LoginRedirect() && unchanged(this)
      ensures caller.Authenticated? && eventId !in old(events) ==> r == NotFound && unchanged(this)
      ensures caller.Authenticated? && eventId in old(events) && !CanManage(caller.user, old(events)[eventId]) ==>
        r == Redirect(DashboardPage, Error) && unchanged(this)
      ensures old(MayManage(caller, eventId)) && !isPost ==>
        r == Rendered(old(events)[eventId]) && unchanged(this)
      ensures old(MayManage(caller, eventId)) && isPost ==>
        && r == Redirect(DashboardPage, Success)
        && events == old(events) - {eventId}
        && registrations == Filter(old(registrations), NotOfEvent(eventId))
        && (forall x :: x in registrations <==> x in old(registrations) && x.event != eventId)
    {
      if caller.Anonymous? {
        return LoginRedirect();
      }
      if eventId !in events {
        return NotFound;
      }
      var event := events[eventId];
      if !CanManage(caller.user, event) {
        return Redirect(DashboardPage, Error);
      }
      if !isPost {
        return Rendered(event);
      }
      EventCascadeKeepsConstraints(users, events, registrations, eventId);
      events := events - {eventId};
      registrations := Filter(registrations, NotOfEvent(eventId));
      r := Redirect(DashboardPage, Success);
    }

    /** Deleting a user (through the authentication subsystem) cascades: the
        events they organize go, and so do their registrations and every
        registration for one of those events. */
    method DeleteUser(id: nat)
      requires Valid()
      modifies this`users, this`events, this`registrations
      ensures Valid()
      ensures users == old(users) - {id}
      ensures events == EventsSurviving(old(events), id)
      ensures registrations == Filter(old(registrations), Survives(id, events.Keys))
      ensures forall k :: k in events ==> events[k].organizer != id
      ensures forall x :: x in registrations <==>
        x in old(registrations) && x.student != id && old(events)[x.event].organizer != id
    {
      UserCascadeKeepsConstraints(users, events, registrations, id);
      events := EventsSurviving(events, id);
      registrations := Filter(registrations, Survives(id, events.Keys));
      users := users - {id};
    }
  }
}
