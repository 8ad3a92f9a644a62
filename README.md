# Mentor–student assignment store

A model of the request handlers of a small mentor/student REST service
(`server.js`). The handlers read and write two document collections, mentors and
students. Here the collections are the fields of a `Store` class. Each mutating
handler is a method that checks its guards and then updates the store. Each query
is a function over the store's state. The reply is `Ok(value)`, `NotFound(error)` (HTTP 404)
or `BadRequest(error)` (HTTP 400), with the source's error messages.

Files:

- `wrappers.dfy`: `Option` and the handler reply type `Response`.
- `records.dfy`: the `Mentor` and `Student` documents, `Student.find` over the three
  filters the handlers use (`Find`), and the lemmas behind the bulk-assignment count check.
- `server.dfy`: the `Store` class with the seven handlers, the reference invariant
  `Referential` (part of `Store.Valid`) and the lifecycle relation `Grows`.
- `consistency.dfy`: how the two sides of an assignment relate. These are a mentor's
  `students` list and a student's `mentor` field.
- `scenario.dfy`: a client that runs the worked example (Alice takes Bob and Carol,
  then Bob moves to Dave) against the handlers' contracts.

Modelling decisions:

- Ids are natural numbers. One counter hands out every id, as ObjectIds are unique
  across collections. `Store.Valid` states that every stored id is below the counter.
  A record created by `CreateMentor` or `CreateStudent` therefore has an id no
  document has.
- The students collection has a natural order, `studentOrder`: the insertion order.
  `Student.find` returns matches in that order, whatever the order of the request.
  No handler lists mentors, so mentors have no order.
- The bulk assignment's `Student.find({_id: {$in: ids}, mentor: null})` finds each
  matching document once. Its result length equals the number of distinct requested
  ids that name an unassigned student (`FindSize`, `Eligible`). The count check
  `students.length !== studentIds.length` then fails exactly when an id repeats, an
  id names no student, or the student already has a mentor (`EligibleCount`, `MatchCount`).
- The block pushed onto the mentor's `students` holds the requested ids, each once.
  Its order is the store's order. The contract of `AssignStudents` only promises the
  multiset of ids. Existing entries are kept and no dedup is done against them.
- `updateMany` is `SetMentor`. `save` is the final assignment of the maps. Each handler is one
  atomic step.
- A fresh mentor has an empty `students` list. A fresh student has no mentor and an
  empty `previousMentors`. These are the defaults of the document schemas, which are
  not part of this model.

Two behaviours of the code are kept as written:

- Assign-mentor pushes the current mentor onto `previousMentors` whenever the student
  has one, also when the new mentor is the same. The current mentor can then appear at
  the end of the history (`ReassignToSameMentorRecordsIt`).
- Assign-mentor never updates any mentor's `students` list. Bulk assignment keeps
  "every student a mentor lists names that mentor" (`BulkAssignKeepsConsistent`).
  Assign-mentor breaks it as soon as it moves a listed student elsewhere
  (`ReassignLeavesStaleEntry`). So that property is not a store invariant. `Store.Valid` holds
  only the reference invariant: every stored id names an existing document.

## Model

| member | source | states |
|---|---|---|
| `Records.Find` | server.js:42-45 | `Student.find(filter)` returns exactly the stored students that match the filter (id in the `$in` set if given, `mentor` equal to the given value or null), each once |
| `Records.FindSize` | server.js:47 | the number of documents found equals the number of distinct ids whose student matches the filter |
| `Records.EligibleCount` | server.js:42-49 | the requested ids naming unassigned students are as many as the request exactly when the ids are distinct and each names an existing student without a mentor |
| `Records.MatchCount` | server.js:42-49 | the count check passes if and only if the request is assignable: distinct ids, all existing, all unassigned |
| `Records.MatchedBlock` | server.js:52 | when the count check passes, the ids pushed onto the mentor are the requested ids, each exactly once |
| `Server.Store.CreateMentor` | server.js:17-22 | a new mentor with the given name, a fresh id and no students is added; nothing else changes |
| `Server.Store.CreateStudent` | server.js:25-30 | a new student with the given name, a fresh id, no mentor and no history is added at the end of the collection; nothing else changes |
| `Server.Store.AssignStudents` | server.js:33-62 | unknown mentor gives NotFound, and an unassignable request gives BadRequest; both leave the store unchanged. Success keeps the old `students` entries and appends the requested ids, each once. Every requested student gets `mentor := mentorId`; no other mentor or student changes. An empty request succeeds and changes no student |
| `Server.Store.UnassignedStudents` | server.js:65-68 | the result holds exactly the stored students whose `mentor` is null, each once |
| `Server.Store.AssignMentor` | server.js:71-93 | an unknown student gives NotFound; otherwise an unknown mentor gives NotFound; neither changes anything. Success sets `mentor := mentorId` and appends the replaced mentor, if any, to `previousMentors`, keeping earlier entries. No mentor changes |
| `Server.Store.StudentsOf` | server.js:96-100 | the result holds exactly the stored students whose `mentor` is the given id, each once; it is empty for an id that names no mentor |
| `Server.Store.PreviousMentors` | server.js:103-110 | an unknown student gives NotFound. Otherwise the result is the mentor record of every history entry, in recorded order. Every entry resolves because of the reference invariant |
| `Server.BulkAssignKeepsReferential` | server.js:52-58 | after a bulk assignment every mentor, previous mentor and listed student still names an existing document |
| `Server.SetMentorGrows` | server.js:55-58 | the bulk update keeps every student under its id, changes no name or history and never unassigns |
| `Server.GrowsTransitive` | server.js:85-89 | across any sequence of handlers, histories only grow at the end and an assigned student stays assigned |
| `Consistency.BulkAssignKeepsConsistent` | server.js:52-58 | a successful bulk assignment keeps "every student a mentor lists names that mentor" |
| `Consistency.ReassignLeavesStaleEntry` | server.js:85-90 | moving a listed student to another mentor leaves the old mentor listing a student that no longer names it |
| `Consistency.ReassignToSameMentorRecordsIt` | server.js:85-89 | reassigning a student to its current mentor appends that mentor to the history |
| `Scenario.CreateAliceBobAndCarol` | server.js:17-30 | creating a mentor and two students in a fresh store gives exactly those three records, unassigned and with distinct ids |
| `Scenario.AssignBobAndCarolToAlice` | server.js:33-62 | bulk-assigning both students to the mentor sets both students' mentor and lists both ids under the mentor |

## Left out

- Express routing, body parsing, `app.listen`, HTTP status codes and JSON serialisation.
  Only the reply kind and its error message are kept.
- The database connection and the Mongoose calls (`save`, `findById`, `find`,
  `updateMany`, `populate`). They are replaced by lookups and updates on the store's maps.
- Ids that cannot be cast to an ObjectId, a request body without `studentIds`, and
  failures of the store itself. In the source these are unhandled exceptions. The model
  takes ids and a list of ids as given.
- Concurrent requests, and the gap between `updateMany` and the mentor's `save` in bulk
  assignment. Each handler is modelled as one atomic step.
- Schema validation of `name`. A missing name is modelled as whatever string is passed.
- The real iteration order of the database. The model uses insertion order.
- Server.Store.UnassignedStudents: states which students appear, not their order, because the database promises no order.
- Server.Store.StudentsOf: states which students appear, not their order, for the same reason.
- Server.Store.AssignStudents: states the multiset of the appended ids, not their order, because that order is the database's.
- `populate` dropping references to missing mentors. This cannot happen in the model,
  because `Store.Valid` keeps every history entry resolvable.
