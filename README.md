# YARCoin: a Dafny model of the bidding dashboard, the marketplace view and the user registry

YARCoin is a student marketplace. Teachers hold a purse of YARCoin and bid for students. Students
browse the marketplace and see who holds whom. Users register and log in against a small Express
backend. This project models the parts of the repository that compute something:

- **Teacher dashboard** (module `TeacherHome`, file `teacher_home.dfy`). `PlaceBid` is the pure
  step behind `handleBid`: it takes the dashboard's students and teachers and either rejects the
  bid (with one of the handler's alerts, or, for an unknown student, the point where the handler throws) or returns the new lists. The `Dashboard` class holds the
  component's state hooks. Its `HandleBid` method commits the result of `PlaceBid`. The
  hard-coded students and teachers are the constructor's initial state, and they serve as a worked
  example.
- **Marketplace view** (module `Playground`, file `playground.dfy`). This covers:
  - turning API student records into cards, with their defaults;
  - attaching teacher names and emails to bids;
  - the tab filter and the status badge;
  - choosing which student is logged in.
- **Sign-in page** (module `Auth`, file `auth.dfy`). This covers:
  - the single-field form updates;
  - the checks made before a registration is sent;
  - the password-strength hint;
  - how the answers of `/register` and `/login` are read, and where a login leads.
- **User registry** (module `Server`, file `server.dfy`). The `/register` handler is a method of a
  `UserCollection` class whose store is a sequence of users. The `/login` handler is a read-only
  function over that sequence.
- `ArrayOps` (file `array_ops.dfy`) gives JavaScript's `Array.prototype.find` and `filter` the
  contracts the other modules rely on. `Wrappers` holds `Option` and `Result`.

JavaScript values are written out explicitly:
- A field that may be missing or `null` is an `Option`.
- "Truthy" for a string means present and not empty.
- `a || b` is spelled out where the source uses it.
- The bid box after `parseInt` is an `Option<int>`, with `None` for `NaN`.

Notes on the model, where the code decides:

- A bid moves the student straight to the bidder, with no refund to the previous holder. There is
  no settlement phase, no coin conservation and no locking. The model follows the code.
  `PlaceBidRaisesAndDebits` proves that the previous holder's purse does not change.
- `handleBid` reads `student.currentBid` without checking that the student exists. For an unknown
  student id this throws a TypeError out of the click handler: there is no alert and no state is
  set. The model returns `StudentMissing` for that throw, at the point where it happens (after the
  teacher check), and `HandleBid` then sets nothing.
- The purse check reads the *first* teacher with the bidder's name, but the debit and the
  insertion apply to *every* teacher of that name. The previous holder is released by id. The
  invariants therefore require distinct teacher names and ids, which the fixture has.
  `SharedNameOverdraws` shows what goes wrong without distinct names: a purse goes negative, and
  two lists hold the same student.

## Model

| member | source | states |
|---|---|---|
| ArrayOps.Find | frontend/src/components/Teacher-Dashboard/TeacherHome.jsx:47-48 | `find` returns None exactly when no element satisfies the predicate; otherwise it returns an element that satisfies it and has no satisfying element before it |
| ArrayOps.Filter | frontend/src/components/Student-Dashboard/Playground.jsx:199-203 | `filter` keeps every satisfying element with its multiplicity, drops the rest, and preserves order (subsequence); when every element satisfies the predicate, the input comes back unchanged |
| TeacherHome.FindStudent | frontend/src/components/Teacher-Dashboard/TeacherHome.jsx:47 | the first student card with the id, or None exactly when no card has it |
| TeacherHome.GetTeacherByName | frontend/src/components/Teacher-Dashboard/TeacherHome.jsx:98-100 | the first teacher with the name, or None exactly when no teacher has it |
| TeacherHome.FindHolder | frontend/src/components/Teacher-Dashboard/TeacherHome.jsx:66 | the first teacher whose list holds the student, or None exactly when no list holds it |
| TeacherHome.Without | frontend/src/components/Teacher-Dashboard/TeacherHome.jsx:69 | the student id is gone, every other id keeps its multiplicity, and order is preserved |
| TeacherHome.PlaceBid | frontend/src/components/Teacher-Dashboard/TeacherHome.jsx:40-89 | the outcomes in the handler's order: a missing or non-positive amount, an unknown teacher, then the throw for a missing student (StudentMissing, no alert), an amount not above the current bid (regardless of purse), an amount above the purse; the bid is accepted exactly when every check passes; on success the lengths are kept, only the target card changes (to the amount and the bidder), ids and names are kept, and only the bidder's purse is debited by the amount |
| TeacherHome.HolderIsUnique | frontend/src/components/Teacher-Dashboard/TeacherHome.jsx:66-71 | under the exclusive-holdings invariant, at most one teacher's list holds a student, so the previous holder is well defined |
| TeacherHome.BidderIndex | frontend/src/components/Teacher-Dashboard/TeacherHome.jsx:48 | with distinct names, the teacher found by name is the only one the debit step touches |
| TeacherHome.TransferMovesHolding | frontend/src/components/Teacher-Dashboard/TeacherHome.jsx:65-82 | under distinct teacher ids and exclusive holdings: after both teacher steps the student appears exactly once in the bidder's list and in no other, even when the bidder already held it; every other id keeps its multiplicity in every list |
| TeacherHome.TransferKeepsIdentities | frontend/src/components/Teacher-Dashboard/TeacherHome.jsx:67-82 | the teacher steps keep the list length, every id and name, and change only the bidder's purse, by exactly the amount |
| TeacherHome.TransferKeepsSolvent | frontend/src/components/Teacher-Dashboard/TeacherHome.jsx:60-82 | with distinct teacher names and no negative purse before the bid: when the purse check passes, no purse becomes negative |
| TeacherHome.TransferKeepsExclusive | frontend/src/components/Teacher-Dashboard/TeacherHome.jsx:65-82 | with distinct teacher names and ids and exclusive holdings before the bid: each student id still occurs in at most one list, at most once |
| TeacherHome.PlaceBidPreservesValid | frontend/src/components/Teacher-Dashboard/TeacherHome.jsx:40-96 | in a valid market (distinct teacher names and ids, distinct student ids, no negative purse, exclusive holdings): an accepted bid keeps distinct names and ids, non-negative purses and exclusive holdings, and leaves the student held once by the bidder and by nobody else |
| TeacherHome.PlaceBidKeepsOtherHoldings | frontend/src/components/Teacher-Dashboard/TeacherHome.jsx:65-82 | under distinct teacher ids and exclusive holdings: an accepted bid leaves every other student id with its multiplicity in every teacher's list, so no other student changes hands |
| TeacherHome.PlaceBidRaisesAndDebits | frontend/src/components/Teacher-Dashboard/TeacherHome.jsx:55-89 | in a valid market: on success the student's bid strictly rises and its teacher is the bidder; the bidder's purse drops by the amount and stays non-negative; every other purse, the previous holder's included, is unchanged (no refund) |
| TeacherHome.FindStudentIgnoresBasePrice | frontend/src/components/Teacher-Dashboard/TeacherHome.jsx:47 | the student lookup finds the same card, with the same current bid, whatever the base prices |
| TeacherHome.BasePriceIgnored | frontend/src/components/Teacher-Dashboard/TeacherHome.jsx:55-63 | the base price is never consulted: markets differing only in base prices get the same verdict, the same error, and on success the same teachers |
| TeacherHome.SharedNameOverdraws | frontend/src/components/Teacher-Dashboard/TeacherHome.jsx:48-82 | with two teachers of the same name the purse check passes on the first, but the debit leaves the second at -40 and both lists hold the student |
| TeacherHome.Dashboard.constructor | frontend/src/components/Teacher-Dashboard/TeacherHome.jsx:15-34 | the initial state is the hard-coded students and teachers, no selection, an empty bid box and the simulated logged-in teacher, and it satisfies the invariants |
| TeacherHome.Dashboard.SelectStudent | frontend/src/components/Teacher-Dashboard/TeacherHome.jsx:136 | "Place Bid" on a card selects that student |
| TeacherHome.Dashboard.CancelBid | frontend/src/components/Teacher-Dashboard/TeacherHome.jsx:202 | "Cancel" clears the selection |
| TeacherHome.Dashboard.EnterBidAmount | frontend/src/components/Teacher-Dashboard/TeacherHome.jsx:194 | typing sets the bid box |
| TeacherHome.Dashboard.HandleBid | frontend/src/components/Teacher-Dashboard/TeacherHome.jsx:40-96 | a bid turned down (by an alert, or by the throw for a missing student) leaves every field unchanged and is reported; an accepted one commits PlaceBid's lists, clears the box and the selection; the invariants hold afterwards |
| TeacherHome.FixtureIsValid | frontend/src/components/Teacher-Dashboard/TeacherHome.jsx:15-28 | the fixture has distinct names and ids, non-negative purses and exclusive holdings |
| TeacherHome.FixtureLookups | frontend/src/components/Teacher-Dashboard/TeacherHome.jsx:15-28 | in the fixture the logged-in teacher is the fourth teacher, student 1 is the first card, and its holder is the first teacher |
| TeacherHome.FixtureTransferAt | frontend/src/components/Teacher-Dashboard/TeacherHome.jsx:65-82 | each teacher of the fixture after a bid of 60 for student 1 |
| TeacherHome.FixtureTransfer | frontend/src/components/Teacher-Dashboard/TeacherHome.jsx:65-82 | the whole teacher list after that bid |
| TeacherHome.FixtureRecord | frontend/src/components/Teacher-Dashboard/TeacherHome.jsx:84-89 | only the first card changes, to 60 and the bidder |
| TeacherHome.FixtureOutbid | frontend/src/components/Teacher-Dashboard/TeacherHome.jsx:15-96 | Prof. Raunak Joshi outbids Dr. Tatwadarshi Nagarhalli for Ankit Bari at 60: the student moves, the bidder's purse goes from 220 to 160, and the old holder keeps 200 |
| TeacherHome.FixtureEqualBidRefused | frontend/src/components/Teacher-Dashboard/TeacherHome.jsx:55-58 | a bid of 50, equal to the current bid, is refused with that bid in the alert |
| Playground.FindTeacher | frontend/src/components/Student-Dashboard/Playground.jsx:144 | the first teacher with the `_id`, or None exactly when there is none |
| Playground.GetTeacherNameById | frontend/src/components/Student-Dashboard/Playground.jsx:174-177 | 'Unknown Teacher' when no teacher has the id; otherwise the first match's name, or 'Unknown Teacher' when that name is empty; never a name other than a matching teacher's |
| Playground.NameBids | frontend/src/components/Student-Dashboard/Playground.jsx:143-149 | one entry per bid, in order, keeping the bid and adding its teacher's name |
| Playground.ContactBids | frontend/src/components/Student-Dashboard/Playground.jsx:125-132 | one entry per bid, in order, keeping the bid, with its teacher's name as GetTeacherNameById gives it, and the first matching teacher's email, or 'Unknown Email' when there is no such teacher or its email is empty |
| Playground.ProcessStudent | frontend/src/components/Student-Dashboard/Playground.jsx:141-168 | the card keeps id, name, email and owner; skills and achievements default to 'Not specified'; currentBid falls back to 0 without a balance; basePrice falls back to 30 when missing or 0; isAvailable holds exactly when there is no owner; with an owner, ownedByTeacher is the first teacher with the owner's id and the current teacher is that teacher's name, or none when it is empty; with no owner, or no teacher with its id, neither is shown; bids are named |
| Playground.ProcessAllStudents | frontend/src/components/Student-Dashboard/Playground.jsx:140-172 | exactly one card per record, in the same order |
| Playground.FilterByTab | frontend/src/components/Student-Dashboard/Playground.jsx:199-203 | 'acquired' keeps exactly the owned cards, 'bidding' the unowned cards with bids, any other tab all cards; the result is an order-preserving subsequence |
| Playground.StatusOf | frontend/src/components/Student-Dashboard/Playground.jsx:246-247 | Acquired exactly when owned, Bidding exactly when the card passes the 'bidding' filter, Available otherwise |
| Playground.TabsMatchBadges | frontend/src/components/Student-Dashboard/Playground.jsx:199-203 | a card is on the 'acquired' (resp. 'bidding') tab exactly when its badge says Acquired (resp. Bidding) |
| Playground.FindStudentByEmail | frontend/src/components/Student-Dashboard/Playground.jsx:74-76 | the first student with the email, or None exactly when none has it |
| Playground.CurrentStudent | frontend/src/components/Student-Dashboard/Playground.jsx:71-90 | the navigation-state email wins whenever it finds a student; the stored email is consulted only when it found nothing; any student returned is in the list and has the email that was used |
| Auth.ClearMessage | frontend/src/components/Authentication/Auth.jsx:29 | typing always leaves an empty message; an already empty one is kept as it is |
| Auth.HandleChange | frontend/src/components/Authentication/Auth.jsx:27-30 | the named field takes the value, every other field is unchanged, and the message is cleared |
| Auth.HandleLoginChange | frontend/src/components/Authentication/Auth.jsx:32-35 | the same for the login form |
| Auth.GetPasswordStrength | frontend/src/components/Authentication/Auth.jsx:145-150 | empty at length 0, Weak at 1-5, Medium at 6-7, Strong from 8, each band in both directions |
| Auth.StrengthIsMonotone | frontend/src/components/Authentication/Auth.jsx:145-150 | a longer password never rates lower |
| Auth.RegisterRequest | frontend/src/components/Authentication/Auth.jsx:48-70 | a mismatch is reported first, even for a short password; matching passwords shorter than 6 are refused; the request is sent exactly when the passwords match and have at least 6 characters, and it carries the form's fields and the role |
| Auth.AcceptedPasswordIsNotWeak | frontend/src/components/Authentication/Auth.jsx:54-58 | a password that passes the checks rates Medium or Strong in the strength hint (lines 145-150) |
| Auth.AfterRegister | frontend/src/components/Authentication/Auth.jsx:74-89 | a non-2xx answer shows "Error: " and the server's error; a 2xx answer switches to the login tab and clears the form |
| Auth.HomeOf | frontend/src/components/Authentication/Auth.jsx:127-133 | teacher to /teacher-home, student to /student-home, and no page for any other role |
| Auth.AfterLogin | frontend/src/components/Authentication/Auth.jsx:115-133 | the login fails exactly when the status is not 2xx or success is not set, with the server's error or "Login failed"; a successful reply with role teacher or student navigates to that role's home with the username, and only then is there a navigation; any other successful reply, including one without a role, gives "Invalid role received from backend" |
| Auth.RegisterThenLoginLeadsHome | frontend/src/components/Authentication/Auth.jsx:44-133 | a registration passing the page's checks, with filled-in fields, an offered role and a fresh username, followed by a login with the same credentials, lands on that role's home page |
| Server.FindByUsername | backend/server.js:32 | a stored user with the username, or None exactly when there is none |
| Server.FindByCredentials | backend/server.js:58 | the first stored user matching both username and plaintext password, or None exactly when there is none |
| Server.Login | backend/server.js:50-67 | 400 "Missing fields" when either field is missing or empty; otherwise 200 exactly when some user matches both fields, and then that user's role and username; with both fields present, every other answer is 401 "Invalid credentials"; the store is only read |
| Server.RegisterThenLogin | backend/server.js:37-67 | after inserting a new user with a fresh username, usernames stay distinct and logging in with the same credentials returns 200 with the registered role and username |
| Server.UserCollection.Register | backend/server.js:24-40 | 400 for a missing or empty field, checked before the duplicate check; 409 for a taken username; both leave the store unchanged; otherwise exactly one user with the given fields is appended; usernames stay distinct |

## Left out

- HTTP and persistence: `fetch`, JSON parsing, the ngrok headers, Express and CORS setup, the MongoDB connection and `app.listen`. The handlers are modelled as functions of the request body and the store.
- The 500 "Database error" answers of both handlers, and the page's "Failed to connect to backend" message: they depend on I/O failures the model does not have.
- backend/models/User.js is not part of this model. The users collection is a sequence of plain user records, with no schema validation or unique index.
- Browser side effects: `localStorage`, `navigate`, `window.location`, `alert`, the loading flags, and the `setTimeout` that clears messages and delays the redirect. The model returns the message or the destination instead. The username written to `localStorage` appears only as the `username` of `Navigate`.
- Rendering, CSS classes and the React hooks themselves. `useEffect` fetching, and the guard that runs `processAllStudents` once data is loaded, are left out. The `set*` calls are the final assignments.
- `parseInt` semantics: the bid box is an `Option<int>`, with `None` wherever `parseInt` gives `NaN`.
- TeacherHome.Dashboard.HandleBid: the success alert's text is not modelled, only that no rejection alert is raised.
- Bid settlement, refunds, coin conservation, per-student locking and concurrent bids do not exist in the code and are not modelled.
- StudentHome.jsx (file upload), the two navbars and App.jsx: UI and routing with nothing to compute.
- Request fields are modelled as strings or absent. JSON numbers, booleans, objects and MongoDB query operators in a request body (for example a password `{"$ne": ""}`, which passes the presence check and matches any password in `findOne`) are not modelled; the login and register contracts hold only for string fields.
- Server.UserCollection.Register: the handler is one atomic step. The source awaits between `findOne` and `save`, so two concurrent registrations of one username can both pass the 409 check and both be stored; distinct usernames are kept only for requests handled one at a time.
- JavaScript string lengths count UTF-16 code units, while the model counts Unicode scalar values (`seq<char>`). A password with characters outside the Basic Multilingual Plane (emoji, for instance) is longer in the browser than in the model, so the length check and the strength bands can differ for such passwords.
- Auth.AfterRegister: when a failed answer has no `error` field, the message is modelled as "Error: undefined", which is JavaScript's string conversion.
