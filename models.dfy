/** The persistence model: the event and registration tables, the user table
    they refer to, the constraints the schema declares (unique together,
    foreign keys with cascading delete), the default orderings, and the small
    helpers the Event and Registration records carry. */
module Models {
  import opened Collections

  /** A user row of the authentication subsystem. Students have both flags false. */
  datatype User = User(id: nat, username: string, isStaff: bool, isSuperuser: bool)

  /** The four fields of an event a form may set. */
  datatype EventFields = EventFields(title: string, description: string, date: int, location: string)

  /** An event row; `organizer` is a user id, dates and stamps are integers. */
  datatype Event = Event(
    id: nat,
    title: string,
    description: string,
    date: int,
    location: string,
    organizer: nat,
    createdAt: int,
    updatedAt: int)

  /** A registration row: which student holds a place at which event (both ids). */
  datatype Registration = Registration(student: nat, event: nat, createdAt: int)

  datatype Option<T> = None | Some(value: T)

  // --- Event helpers ---------------------------------------------------------

  /** The editable fields of an event, as an edit form is pre-filled with them. */
  function FieldsOf(e: Event): EventFields {
    EventFields(e.title, e.description, e.date, e.location)
  }

  /** A new event row: auto_now_add and auto_now both stamp `now`. */
  function NewEvent(id: nat, f: EventFields, organizer: nat, now: int): (e: Event)
    ensures e.id == id && e.organizer == organizer
    ensures FieldsOf(e) == f
    ensures e.createdAt == now && e.updatedAt == now
  {
    Event(id, f.title, f.description, f.date, f.location, organizer, now, now)
  }

  /** A saved edit form: the editable fields replaced, auto_now refreshed. */
  function Edited(e: Event, f: EventFields, now: int): (e': Event)
    ensures FieldsOf(e') == f
    ensures e'.id == e.id && e'.organizer == e.organizer && e'.createdAt == e.createdAt
    ensures e'.updatedAt == now
  {
    e.(title := f.title, description := f.description, date := f.date,
       location := f.location, updatedAt := now)
  }

  /** Saving an edit form with the event's own fields changes nothing but the stamp. */
  lemma EditWithOwnFields(e: Event, now: int)
    ensures Edited(e, FieldsOf(e), now) == e.(updatedAt := now)
  {
  }

  /** The event's date lies before `now`. */
  predicate IsPast(e: Event, now: int) {
    e.date < now
  }

  /** The string form of an event is its title. */
  function EventStr(e: Event): string {
    e.title
  }

  /** The string form of a registration: the student's username, " - ", the event's title. */
  function RegistrationStr(student: User, event: Event): (s: string)
    ensures |s| == |student.username| + 3 + |event.title|
    ensures s[..|student.username|] == student.username
    ensures s[|student.username|..|student.username| + 3] == " - "
    ensures s[|s| - |event.title|..] == EventStr(event)
  {
    student.username + " - " + event.title
  }

  /** The text in front of the first space (all of `s` when it has none). */
  function UpToSpace(s: string): (r: string)
    ensures |r| <= |s| && r == s[..|r|]
    ensures ' ' !in r
    ensures |r| == |s| || s[|r|] == ' '
  {
    if s == [] || s[0] == ' ' then [] else [s[0]] + UpToSpace(s[1..])
  }

  /** A username without spaces can be read back from a registration's string form. */
  lemma {:induction false} UsernameFromRegistrationStr(student: User, event: Event)
    requires ' ' !in student.username
    ensures UpToSpace(RegistrationStr(student, event)) == student.username
  {
    UpToSpacePrefix(student.username, " - " + event.title);
    assert RegistrationStr(student, event) == student.username + (" - " + event.title);
  }

  lemma {:induction false} UpToSpacePrefix(a: string, b: string)
    requires ' ' !in a && b != [] && b[0] == ' '
    ensures UpToSpace(a + b) == a
  {
    if a != [] {
      assert (a + b)[1..] == a[1..] + b;
      UpToSpacePrefix(a[1..], b);
    }
  }

  // --- Constraints -----------------------------------------------------------

  /** The row `e` is what the event table holds under its id. */
  predicate Stored(events: map<nat, Event>, e: Event) {
    e.id in events && events[e.id] == e
  }

  /** Every event row sits under its own id. */
  predicate KeysAreIds(events: map<nat, Event>) {
    forall k :: k in events ==> events[k].id == k
  }

  /** Some row registers `student` for `event`. */
  predicate Registered(regs: seq<Registration>, student: nat, event: nat) {
    exists r :: r in regs && r.student == student && r.event == event
  }

  /** unique_together = ('student', 'event'): the first row's pair is not
      registered again further on, and the same holds of the rest. */
  predicate UniqueTogether(regs: seq<Registration>) {
    regs == [] ||
    (!Registered(regs[1..], regs[0].student, regs[0].event) && UniqueTogether(regs[1..]))
  }

  /** In a unique table two rows with the same (student, event) are the same row. */
  lemma {:induction false} OneRowPerPair(regs: seq<Registration>, r: Registration, q: Registration)
    requires UniqueTogether(regs) && r in regs && q in regs
    requires r.student == q.student && r.event == q.event
    ensures r == q
  {
    assert regs == [regs[0]] + regs[1..];
    if r != regs[0] && q != regs[0] {
      OneRowPerPair(regs[1..], r, q);
    }
  }

  /** In a unique table every row occurs once. */
  lemma {:induction false} RowOccursOnce(regs: seq<Registration>, row: Registration)
    requires UniqueTogether(regs) && row in regs
    ensures multiset(regs)[row] == 1
  {
    assert regs == [regs[0]] + regs[1..];
    if row == regs[0] {
      assert row !in regs[1..];
    } else {
      RowOccursOnce(regs[1..], row);
    }
  }

  /** Foreign keys: every organizer is a user, every registration names a
      user and an event that exist. */
  ghost predicate ForeignKeysHold(users: map<nat, User>, events: map<nat, Event>, regs: seq<Registration>) {
    && (forall k :: k in events ==> events[k].organizer in users)
    && (forall r :: r in regs ==> r.student in users && r.event in events)
  }

  // --- Row selectors (the WHERE clauses of the queries) ----------------------

  function OfEvent(event: nat): Registration -> bool {
    (r: Registration) => r.event == event
  }

  function OfStudent(student: nat): Registration -> bool {
    (r: Registration) => r.student == student
  }

  function OfPair(student: nat, event: nat): Registration -> bool {
    (r: Registration) => r.student == student && r.event == event
  }

  function NotRow(row: Registration): Registration -> bool {
    r => r != row
  }

  function NotOfEvent(event: nat): Registration -> bool {
    (r: Registration) => r.event != event
  }

  function OrganizedBy(organizer: nat): Event -> bool {
    (e: Event) => e.organizer == organizer
  }

  /** A registration survives the deletion of user `student` when it is not
      that user's and its event is among the events that survive. */
  function Survives(student: nat, keptEvents: set<nat>): Registration -> bool {
    (r: Registration) => r.student != student && r.event in keptEvents
  }

  // --- Queries ---------------------------------------------------------------

  /** The rows of the event table with ids below `n`, in id order. */
  function Rows(events: map<nat, Event>, n: nat): (r: seq<Event>)
    requires KeysAreIds(events)
    ensures forall e :: multiset(r)[e] == if e.id < n && Stored(events, e) then 1 else 0
  {
    if n == 0 then []
    else
      var front := Rows(events, n - 1);
      var last := if n - 1 in events then [events[n - 1]] else [];
      assert forall e :: multiset(front + last)[e] == multiset(front)[e] + multiset(last)[e];
      front + last
  }

  /** Registration.objects.get(student=..., event=...): the row for the pair, if any. */
  function Lookup(regs: seq<Registration>, student: nat, event: nat): (r: Option<Registration>)
    ensures r.Some? <==> Registered(regs, student, event)
    ensures r.Some? ==> r.value in regs && r.value.student == student && r.value.event == event
  {
    if regs == [] then None
    else if regs[0].student == student && regs[0].event == event then Some(regs[0])
    else
      var r := Lookup(regs[1..], student, event);
      assert forall x :: x in regs ==> x == regs[0] || x in regs[1..];
      r
  }

  /** Event.registered_students_count: the registrations of this event. */
  function RegisteredStudentsCount(e: Event, regs: seq<Registration>): (n: nat)
    ensures n <= |regs|
    ensures n == 0 <==> forall x :: x in regs ==> x.event != e.id
  {
    var rows := Filter(regs, OfEvent(e.id));
    assert rows != [] ==> rows[0] in rows;
    |rows|
  }

  /** The students registered for event `event`. */
  ghost function StudentsOf(regs: seq<Registration>, event: nat): set<nat> {
    set r | r in regs && r.event == event :: r.student
  }

  /** Under unique_together the registration count is the number of distinct
      students registered for the event. */
  lemma {:induction false} CountIsDistinctStudents(e: Event, regs: seq<Registration>)
    requires UniqueTogether(regs)
    ensures RegisteredStudentsCount(e, regs) == |StudentsOf(regs, e.id)|
  {
    if regs != [] {
      var x, rest := regs[0], regs[1..];
      assert regs == [x] + rest;
      CountIsDistinctStudents(e, rest);
      var students := StudentsOf(rest, e.id);
      assert forall r :: r in regs <==> r == x || r in rest;
      if x.event == e.id {
        assert Filter(regs, OfEvent(e.id)) == [x] + Filter(rest, OfEvent(e.id));
        assert x.student !in students;
        assert StudentsOf(regs, e.id) == {x.student} + students;
      } else {
        assert Filter(regs, OfEvent(e.id)) == Filter(rest, OfEvent(e.id));
        assert StudentsOf(regs, e.id) == students;
      }
    }
  }

  // --- Effects of the write operations on the registration table -------------

  /** A new row for a pair not yet registered keeps the table unique. */
  lemma {:induction false} AppendKeepsUnique(regs: seq<Registration>, row: Registration)
    requires UniqueTogether(regs) && !Registered(regs, row.student, row.event)
    ensures UniqueTogether(regs + [row])
    ensures Registered(regs + [row], row.student, row.event)
  {
    if regs != [] {
      var x, rest := regs[0], regs[1..];
      assert regs + [row] == [x] + (rest + [row]);
      assert regs == [x] + rest;
      AppendKeepsUnique(rest, row);
      assert !Registered(rest + [row], x.student, x.event);
    }
    assert row in regs + [row];
  }

  /** Any selection of a unique table is unique. */
  lemma {:induction false} FilterKeepsUnique(regs: seq<Registration>, p: Registration -> bool)
    requires UniqueTogether(regs)
    ensures UniqueTogether(Filter(regs, p))
  {
    if regs != [] {
      var x, rest := regs[0], regs[1..];
      var kept := Filter(rest, p);
      FilterKeepsUnique(rest, p);
      if p(x) {
        assert Filter(regs, p) == [x] + kept;
        assert ([x] + kept)[1..] == kept;
        assert !Registered(kept, x.student, x.event);
      } else {
        assert Filter(regs, p) == kept;
      }
    }
  }

  /** Deleting one row of a unique table removes exactly that row, and with
      it the only registration of its (student, event) pair. */
  lemma DeleteRowRemovesPair(regs: seq<Registration>, row: Registration)
    requires UniqueTogether(regs) && row in regs
    ensures multiset(Filter(regs, NotRow(row))) == multiset(regs) - multiset{row}
    ensures |Filter(regs, NotRow(row))| == |regs| - 1
    ensures !Registered(Filter(regs, NotRow(row)), row.student, row.event)
    ensures UniqueTogether(Filter(regs, NotRow(row)))
  {
    var rest := Filter(regs, NotRow(row));
    DeleteRowMultiset(regs, row);
    forall y | y in rest
      ensures y.student != row.student || y.event != row.event
    {
      if y.student == row.student && y.event == row.event {
        OneRowPerPair(regs, y, row);
      }
    }
    FilterKeepsUnique(regs, NotRow(row));
  }

  lemma DeleteRowMultiset(regs: seq<Registration>, row: Registration)
    requires UniqueTogether(regs) && row in regs
    ensures multiset(Filter(regs, NotRow(row))) == multiset(regs) - multiset{row}
    ensures |Filter(regs, NotRow(row))| == |regs| - 1
  {
    var rest := Filter(regs, NotRow(row));
    RowOccursOnce(regs, row);
    assert multiset(rest) == multiset(regs) - multiset{row};
    assert |multiset(rest)| == |multiset(regs)| - 1;
  }

  /** Deleting any selection of registrations keeps the constraints. */
  lemma FilterKeepsConstraints(users: map<nat, User>, events: map<nat, Event>, regs: seq<Registration>,
                               p: Registration -> bool)
    requires ForeignKeysHold(users, events, regs) && UniqueTogether(regs)
    ensures ForeignKeysHold(users, events, Filter(regs, p)) && UniqueTogether(Filter(regs, p))
  {
    FilterKeepsUnique(regs, p);
  }

  // --- Cascade of deleting an event ------------------------------------------

  /** Deleting event `id` with its registrations leaves all constraints satisfied. */
  lemma EventCascadeKeepsConstraints(users: map<nat, User>, events: map<nat, Event>, regs: seq<Registration>, id: nat)
    requires ForeignKeysHold(users, events, regs) && UniqueTogether(regs)
    ensures var survivors := Filter(regs, NotOfEvent(id));
      && ForeignKeysHold(users, events - {id}, survivors)
      && UniqueTogether(survivors)
      && (forall x :: x in survivors <==> x in regs && x.event != id)
  {
    FilterKeepsUnique(regs, NotOfEvent(id));
  }

  // --- Cascades of deleting a user ------------------------------------------

  /** The event table once user `organizer` is deleted: their events cascade away. */
  function EventsSurviving(events: map<nat, Event>, organizer: nat): (r: map<nat, Event>)
    ensures forall k :: k in r <==> k in events && events[k].organizer != organizer
    ensures forall k :: k in r ==> r[k] == events[k]
  {
    map k | k in events && events[k].organizer != organizer :: events[k]
  }

  /** Deleting user `id` with both cascades leaves all constraints satisfied. */
  lemma UserCascadeKeepsConstraints(users: map<nat, User>, events: map<nat, Event>, regs: seq<Registration>, id: nat)
    requires ForeignKeysHold(users, events, regs) && UniqueTogether(regs)
    ensures var kept := EventsSurviving(events, id);
      var survivors := Filter(regs, Survives(id, kept.Keys));
      && ForeignKeysHold(users - {id}, kept, survivors)
      && UniqueTogether(survivors)
      && (forall x :: x in survivors <==> x in regs && x.student != id && events[x.event].organizer != id)
  {
    var kept := EventsSurviving(events, id);
    var survivors := Filter(regs, Survives(id, kept.Keys));
    FilterKeepsUnique(regs, Survives(id, kept.Keys));
    assert forall x :: x in survivors <==> x in regs && x.student != id && x.event in kept;
  }

  // --- Default orderings -----------------------------------------------------

  function DateOf(e: Event): int {
    e.date
  }

  function CreatedAtOf(r: Registration): int {
    r.createdAt
  }

  /** Event.Meta.ordering = ['-date']: the same events, latest date first. */
  function EventsByDate(events: seq<Event>): (r: seq<Event>)
    ensures SortedDesc(r, DateOf)
    ensures multiset(r) == multiset(events)
  {
    SortDesc(events, DateOf)
  }

  /** Registration.Meta.ordering = ['-created_at']: the same rows, newest first. */
  function RegistrationsByCreation(regs: seq<Registration>): (r: seq<Registration>)
    ensures SortedDesc(r, CreatedAtOf)
    ensures multiset(r) == multiset(regs)
  {
    SortDesc(regs, CreatedAtOf)
  }
}
