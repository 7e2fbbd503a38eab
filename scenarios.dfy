/** Client code that drives the store through the situations the
    repository's own tests exercise, using only the handlers' contracts. */
module Scenarios {
  import opened Collections
  import opened Models
  import opened Views

  const StudentId: nat := 1
  const OrganizerId: nat := 2

  function StudentUser(): User { User(StudentId, "teststudent", false, false) }
  function OrganizerUser(): User { User(OrganizerId, "testorganizer", true, false) }

  function TestFields(date: int): EventFields {
    EventFields("Test Event", "Test Description", date, "Test Location")
  }

  /** The fixture of the view tests: a student, a staff organizer, and one
      event organized by the latter a week ahead, stored under id 1. */
  method Fixture(now: int) returns (store: Store)
    ensures fresh(store) && store.Valid()
    ensures store.users == map[StudentId := StudentUser(), OrganizerId := OrganizerUser()]
    ensures store.events == map[1 := NewEvent(1, TestFields(now + 7), OrganizerId, now)]
    ensures store.registrations == []
  {
    store := new Store(map[StudentId := StudentUser(), OrganizerId := OrganizerUser()]);
    var r := store.CreateEvent(Authenticated(OrganizerUser()), ValidPost(TestFields(now + 7)), now);
  }

  /** The event is stored as created; an anonymous caller is sent to the
      login page and a staff member is refused. */
  method RegistrationIsForStudentsOnly(now: int)
  {
    var store := Fixture(now);
    var event := store.events[1];
    assert event.organizer == OrganizerId && EventStr(event) == "Test Event";
    assert !IsPast(event, now);

    var anonymous := store.RegisterForEvent(Anonymous, 1, now);
    assert anonymous == Redirect(LoginPage, NoFlash) && store.registrations == [];

    var refused := store.RegisterForEvent(Authenticated(OrganizerUser()), 1, now);
    assert refused == Redirect(EventDetailPage(1), Error) && store.registrations == [];
  }

  /** The detail page shows the event to anyone; the organizer's dashboard
      renders, and lists the event; registering marks the student's detail page. */
  method DetailAndDashboard(now: int)
  {
    var store := Fixture(now);
    var detail := store.EventDetail(Anonymous, 1);
    assert detail.Rendered? && detail.view.event.title == "Test Event" && !detail.view.isRegistered;

    var organizer := Authenticated(OrganizerUser());
    store.DashboardListsManagedEvents(organizer);
    assert store.events[1] in store.Dashboard(organizer).view;

    var student := Authenticated(StudentUser());
    var first := store.RegisterForEvent(student, 1, now);
    assert store.EventDetail(student, 1).view.isRegistered;
  }

  /** A student who registers twice holds one registration; the repeat is a warning. */
  method RegisterTwice(now: int)
  {
    var store := Fixture(now);
    var student := Authenticated(StudentUser());

    var first := store.RegisterForEvent(student, 1, now);
    assert first == Redirect(EventDetailPage(1), Success);
    assert store.registrations == [Registration(StudentId, 1, now)];
    assert Filter(store.registrations, OfEvent(1)) == store.registrations;
    assert RegisteredStudentsCount(store.events[1], store.registrations) == 1;

    var again := store.RegisterForEvent(student, 1, now + 1);
    assert again == Redirect(EventDetailPage(1), Warning);
    assert store.registrations == [Registration(StudentId, 1, now)];
  }

  /** The count returns to zero after unregistering; a second unregister is an error. */
  method UnregisterTwice(now: int)
  {
    var store := Fixture(now);
    var student := Authenticated(StudentUser());
    var first := store.RegisterForEvent(student, 1, now);

    var out := store.UnregisterFromEvent(student, 1);
    assert out == Redirect(EventDetailPage(1), Success);
    assert store.registrations == [];
    assert RegisteredStudentsCount(store.events[1], store.registrations) == 0;

    var outAgain := store.UnregisterFromEvent(student, 1);
    assert outAgain == Redirect(EventDetailPage(1), Error);
  }

  /** A student may neither create nor delete events and is sent from the
      dashboard to "my events". */
  method StudentsDoNotManage(now: int)
  {
    var store := Fixture(now);
    var student := Authenticated(StudentUser());

    var denied := store.CreateEvent(student, ValidPost(TestFields(now)), now);
    assert denied == Redirect(HomePage, Error) && store.events.Keys == {1};

    assert store.Dashboard(student) == Redirect(MyEventsPage, NoFlash);

    var notOwner := store.DeleteEvent(student, 1, true);
    assert notOwner == Redirect(DashboardPage, Error) && 1 in store.events;
  }

  /** Deleting an event needs a POST, and takes its registrations with it. */
  method DeleteCascades(now: int)
  {
    var store := Fixture(now);
    var organizer := Authenticated(OrganizerUser());
    var registered := store.RegisterForEvent(Authenticated(StudentUser()), 1, now);
    assert store.registrations == [Registration(StudentId, 1, now)];

    var confirm := store.DeleteEvent(organizer, 1, false);
    assert confirm.Rendered? && 1 in store.events;

    var deleted := store.DeleteEvent(organizer, 1, true);
    assert deleted == Redirect(DashboardPage, Success);
    assert store.events == map[];
    assert store.registrations == [];
  }

  /** A superuser's dashboard lists every event; a staff organizer's lists only their own. */
  method DashboardScopes(now: int)
  {
    var admin := User(3, "admin", true, true);
    var other := User(4, "staff2", true, false);
    var store := new Store(map[OrganizerId := OrganizerUser(), 3 := admin, 4 := other]);

    var a := store.CreateEvent(Authenticated(OrganizerUser()), ValidPost(TestFields(now)), now);
    var b := store.CreateEvent(Authenticated(other), ValidPost(TestFields(now + 1)), now);
    var first, second := store.events[1], store.events[2];
    assert Stored(store.events, first) && Stored(store.events, second);
    assert first.organizer == OrganizerId && second.organizer == 4;

    var all := store.Dashboard(Authenticated(admin));
    assert all.Rendered?;
    assert multiset(all.view)[first] == 1 && multiset(all.view)[second] == 1;

    var own := store.Dashboard(Authenticated(other));
    assert own.Rendered?;
    assert multiset(own.view)[second] == 1 && multiset(own.view)[first] == 0;
    assert second in own.view && first !in own.view;
  }
}
