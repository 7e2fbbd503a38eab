# Student event management: a verified model of the event and registration store

The system is a small web application. Organizers create, edit and delete
events. Students browse events and register or unregister. Dashboards list
events according to the caller's role. This project models its core in
Dafny as an in-memory store of three tables, with the schema's constraints as
the store's invariant:

- the user table, owned by the authentication subsystem;
- the event table, keyed by an auto-incremented id;
- the registration table, one `(student, event, created_at)` row per registration.

Each request handler is one atomic step on that store. The handlers that write
(`register_for_event`, `unregister_from_event`, `create_event`, `edit_event`,
`delete_event`) are methods of the `Views.Store` class. They modify only the
fields their `modifies` clause names and keep `Valid()`. That predicate is the
schema:

- every row sits under its own id;
- every foreign key resolves;
- `(student, event)` is unique.

The handlers that only read (`home`, `event_detail`, `dashboard`, `my_events`,
`event_registrations`) are functions of the store. Each of them says exactly
which rows it returns, and that they are sorted on the ordering's key. Rows
with equal keys come in table order, but no contract states that.

Parameters stand in for what a request carries:

- the caller: `Anonymous`, or `Authenticated(user)` with the user's id and its
  two role flags `isStaff` and `isSuperuser`;
- the HTTP method and whether the event form validated (`EventRequest`);
- the current time, as an integer.

Every handler answers with a `Response`:

- `Rendered(view-model)`: the page is rendered from that view-model;
- `Redirect(target, flash)`: a redirect, with the flash message queued before it (success, warning, error, or none);
- `NotFound`: the event id does not exist.

Files:

- `collections.dfy`: `Filter`, the WHERE clause of a query, with its result
  given exactly as a multiset. `SortDesc`, ordering on a descending key, proved
  sorted and a permutation of its input.
- `models.dfy`: `main/models.py`. It holds the records, the unique-together
  and foreign-key constraints, the cascades, `is_past`,
  `registered_students_count`, both string forms and both default orderings.
- `views.dfy`: `main/views.py`. It holds the permission predicates inlined in
  the handlers and the `Store` class with the handlers.
- `scenarios.dfy`: client methods that drive the store through the handlers'
  contracts alone. From `main/tests.py`:
  - the view tests' fixture (lines 80-97);
  - the event's fields, string form and `is_past` (lines 26-37);
  - the anonymous login redirect on registering (lines 111-114);
  - a student's registration (lines 116-120);
  - the detail page and the organizer's dashboard (lines 105-109 and 122-126).

  Additional situations, not in `main/tests.py`: the warning on a repeated
  registration, unregistering twice, a student refused creating and deleting,
  the delete cascade, and superuser versus staff dashboards.

## Model

| member | source | states |
|---|---|---|
| `Views.Store.RegisterForEvent` | main/views.py:79-95 | An anonymous caller is sent to login, and a missing event is not found. Staff and superusers get an error and the table is unchanged. A student who is not yet registered gets exactly one new row `(student, event, now)` appended, with nothing else changed. A student who is already registered gets the warning, and the table is unchanged. Uniqueness is kept. |
| `Views.Store.UnregisterFromEvent` | main/views.py:98-110 | When the caller's row for the event exists, exactly that row is removed: the other rows keep their order, the multiset loses one element and the length drops by one. No registration for the pair remains. When no row exists, the answer is the "not registered" error and the store is unchanged. |
| `Views.Store.CreateEvent` | main/views.py:139-157 | A caller who is neither staff nor superuser is redirected home with an error, and the store is unchanged. A GET or an invalid POST renders the form and changes nothing. A valid POST adds one event under a fresh id, with the caller as its organizer. All other events stay the same. |
| `Views.Store.EditEvent` | main/views.py:160-179 | A missing event is not found, and the store is unchanged. A caller who is neither a superuser nor the organizer is refused, and the store is unchanged. A GET or an invalid POST renders the event and changes nothing. A valid POST replaces the event's editable fields and refreshes `updated_at`, keeping its id, organizer and `created_at`. |
| `Views.Store.DeleteEvent` | main/views.py:182-198 | An unauthorised caller is refused, and the store is unchanged. A request that is not a POST renders the confirmation and changes nothing. An authorised POST removes the event, together with exactly the registrations that reference it. |
| `Views.Store.DeleteUser` | main/models.py:12 | Deleting a user removes that user's events and registrations, and every registration of those events. All other rows survive, and the constraints still hold. |
| `Views.Store.Home` | main/views.py:11-14 | It lists every stored event exactly once, and nothing else, in non-increasing date order. |
| `Views.Store.EventDetail` | main/views.py:65-76 | A missing id is not found. Otherwise the result is the stored event. `isRegistered` is computed as the query for the caller's rows of the event being non-empty; it is true exactly when the caller is authenticated and holds a registration for the event. |
| `Views.Store.Dashboard` | main/views.py:113-129 | A superuser gets every stored event exactly once. A staff member who is not a superuser gets exactly the events they organize. A student is redirected to "my events", and an anonymous caller to login. Lists are sorted by date, non-increasing. |
| `Views.Store.MyEvents` | main/views.py:132-136 | The authenticated caller gets exactly their own registration rows, newest first. |
| `Views.Store.EventRegistrations` | main/views.py:201-216 | A missing event is not found. A caller who is neither a superuser nor the organizer is redirected to the dashboard with an error. Otherwise the result is exactly the event's registration rows, newest first. |
| `Views.Store.DashboardListsManagedEvents` | main/views.py:113-126 | For a staff member or superuser, the dashboard lists exactly the stored events the caller may edit, delete and inspect under the checks of lines 166, 188 and 207. For each listed event, the registrations page renders. |
| `Views.IsOrganizer` | main/views.py:142 | Staff members and superusers are organizers: they may create events and see the organizer dashboard (also line 116). |
| `Views.CanRegister` | main/views.py:85 | Only a user who is neither staff nor superuser may register for an event. |
| `Views.CanManage` | main/views.py:166 | A superuser, or the event's organizer, may edit the event; the same test guards deletion (line 188) and the registrations page (line 207). |
| `Views.Store.Valid` | main/models.py:12-38 | The store's invariant: rows sit under their ids, event ids lie below the id counter, foreign keys resolve, and `(student, event)` is unique. Every write handler keeps it. |
| `Models.UniqueTogether` | main/models.py:37-38 | No `(student, event)` pair is registered twice. |
| `Models.ForeignKeysHold` | main/models.py:12-34 | Every event's organizer is a user, and every registration's student and event exist. |
| `Models.NewEvent` | main/views.py:149-151 | A created event has the given id, the form's fields and the caller as organizer. Both auto timestamps are `now`. |
| `Models.Edited` | main/views.py:171-173 | A saved edit form replaces the four editable fields and refreshes `updated_at`. It keeps the id, the organizer and `created_at`. |
| `Models.EditWithOwnFields` | main/views.py:177 | Saving the pre-filled form unchanged alters only `updated_at`. |
| `Models.IsPast` | main/models.py:22-24 | An event is past when its date lies before `now`, which is a parameter. |
| `Models.EventStr` | main/models.py:19-20 | Definition: an event's string form is its title. |
| `Models.RegistrationStr` | main/models.py:41-42 | A registration's string form is the username, then `" - "`, then the event's string form. |
| `Models.UsernameFromRegistrationStr` | main/models.py:41-42 | A username without spaces is recovered from the registration's string form: it is the text before the first space. |
| `Models.Rows` | main/views.py:13 | Enumerating the event table yields each stored event with an id below the bound exactly once, and no other row. |
| `Models.Lookup` | main/views.py:104 | `Registration.objects.get` finds a row exactly when one is registered for the pair, and the row it returns has that pair. |
| `Models.RegisteredStudentsCount` | main/models.py:26-28 | The number of the event's registrations: at most the table's size, and zero exactly when no registration refers to the event. |
| `Models.CountIsDistinctStudents` | main/models.py:26-28 | Under unique-together, `registered_students_count` equals the number of distinct students registered for the event. |
| `Models.OneRowPerPair` | main/models.py:37-38 | In a table that satisfies unique-together, any two rows with the same `(student, event)` are one and the same row. |
| `Models.RowOccursOnce` | main/models.py:37-38 | In such a table, every row occurs exactly once. |
| `Models.AppendKeepsUnique` | main/models.py:37-38 | Inserting a row for a pair that is not registered keeps the table unique, and registers the pair. |
| `Models.FilterKeepsUnique` | main/models.py:37-38 | Deleting any selection of rows keeps the table unique. |
| `Models.FilterKeepsConstraints` | main/models.py:33-38 | Deleting any selection of registrations keeps the foreign keys and uniqueness. |
| `Models.EventCascadeKeepsConstraints` | main/models.py:34 | Deleting an event together with its registrations keeps the constraints. The surviving registrations are exactly those of other events, so none refers to the deleted event. |
| `Models.DeleteRowRemovesPair` | main/views.py:104-105 | Deleting a row of a unique table removes exactly that one row, and no registration for its pair remains. |
| `Models.EventsSurviving` | main/models.py:12 | After a user is deleted, the event table keeps exactly the events that user did not organize, unchanged. |
| `Models.UserCascadeKeepsConstraints` | main/models.py:33-34 | After both cascades of a user deletion, the foreign keys and uniqueness hold. The surviving registrations are exactly those of other students for events that survive. |
| `Scenarios.Fixture` | main/tests.py:80-97 | The view tests' fixture: a student, a staff organizer, and one event organized by the latter, stored under id 1. No registrations. |
| `Models.EventsByDate` | main/models.py:16-17 | Event ordering `-date` gives a permutation of the events, sorted by date, non-increasing. |
| `Models.RegistrationsByCreation` | main/models.py:39 | Registration ordering `-created_at` gives a permutation of the rows, sorted by `created_at`, non-increasing. |

## Left out

- Login, logout and sign-up (`login_view`, `logout_view`, `register_view`): they deal with passwords, sessions and a sign-up form. The caller is an input. The user table is given to the store's constructor.
- Form validation in `EventForm`: `main/forms.py` is not part of this model. Whether a POST validated is an input (`InvalidPost` or `ValidPost(fields)`), and no field rules are invented.
- Templates, the messages framework, redirect and 404 mechanics, and HTTP status codes: they appear only as the `Response` and `Flash` tags.
- `select_related`: it changes how rows are fetched, not which rows.
- Transactions, and races on the unique constraint: each handler is one atomic step. The duplicate check is made before the insert, which is the outcome the database's constraint produces.
- Ties in the default orderings: the database leaves their order open. The sort used here is stable, so ties keep the table's id or insertion order. No contract states this: the read handlers promise only sortedness on the key and the exact rows.
- `timezone.now()` and real datetimes: dates and timestamps are integers, and "now" is a parameter.
- The seeding commands, `main/static/js/script.js`, `main/urls.py` and `main/admin.py`: they are outside the store's logic.
- Creating users: only deleting one is modelled, because only deletion has consequences in the core, through the cascades.
- Models.UsernameFromRegistrationStr: it holds only for usernames without a space. The authentication subsystem's username validator rejects spaces in sign-up forms and model validation, but users created directly (as `main/tests.py` and the seeding commands do) are not checked. For a username with a space, the round trip is not promised.
- Register requests: `register_for_event` does not look at the HTTP method, so the model has no method parameter for registering.
- Registration ids: a registration row has no primary key here, and unregistering deletes the row by value (`NotRow`) where the source deletes by the row's key. Under unique-together each row occurs once, so the two delete the same row.
- Field lengths: `max_length=200` on `title` and `location` (main/models.py:8 and 11) is not modelled. A `ValidPost` may carry strings of any length, because the form's validation is an input.
- Views.Store.EditEvent: on an invalid POST, the source's form cleaning writes the fields that did validate into the fetched event instance (unsaved), and that instance is rendered. The model renders the stored event instead, because field-level validation is not modelled. Nothing is saved in either case.
