# Appointment booking backend, modelled in Dafny

The backend of the appointment system (`appointment-system/backend/server.js`) is
a REST layer over two PostgreSQL tables: `Slots(Id, Date, StartTime, EndTime,
IsAvailable)` and `Appointments(Id, UserId, SlotId, Notes)`. Users create slots,
book an available slot (which marks it unavailable) and cancel their own
appointments (which marks the slot available again). Booking and cancelling
each run inside `BEGIN` … `COMMIT`, and any error leads to `ROLLBACK`. Two read-only
queries list the available slots from today on and the caller's appointments,
both ordered by date, then start time.

This project models that booking state machine.

- `schema.dfy` (module `Schema`) defines the rows and the store as a `Database`
  value. The store holds both tables as maps from id to row and the next value
  of each table's id sequence. The module also defines `Consistent`, the
  invariant the writes keep:
  - every id is below its sequence;
  - every appointment's slot exists and is unavailable;
  - every unavailable slot has an appointment;
  - no slot has two appointments.

  So in a consistent store each slot is in one of two states: available with no
  appointment, or unavailable with exactly one (`TwoStates`).
- `transactions.dfy` (module `Transactions`) gives each writing request as a
  function from the store before it to a response and the store after it:
  `Book`, `Cancel` and `CreateSlot`. Their contracts state when each response
  is given, what a success inserts, deletes or flips, and that a rejection or
  a rollback leaves the tables as they were. Status codes are kept as tags.
  Store failures are an input, `failing`: the set of statements the store
  would fail on. An INSERT may fail before it draws its id from the sequence
  (`Insert`) or after (`InsertConstraint`, as for a foreign-key violation).
  Every failure answers 500. In `Book` and `Cancel` the first failing
  statement goes to the handler's catch block, which rolls the transaction
  back. The sequence value an INSERT has drawn is not given back.
  `CreateSlot` runs a single INSERT with no transaction, so a failed INSERT
  simply stores no row.
- `server.dfy` (module `Server`) has the class `Store`. Its fields are the two
  maps and the two sequence counters. Its handlers `PostAppointment`,
  `DeleteAppointment` and `PostSlot` perform the handlers' statements in order
  on those fields. `BEGIN` takes a snapshot of both tables, and a failing
  statement restores it. Each handler is proved to do exactly what the
  matching `Transactions` function says, and to keep `Valid()`
  (`Consistent`).
- `listings.dfy` (module `Listings`) models `GET /api/slots` and
  `GET /api/appointments`. Each is a filter over the table (plus a join for the
  second) followed by an insertion sort on `(date, start time)`. The contracts
  say the rows are sorted and that only qualifying rows appear. In a
  well-formed store, each qualifying row appears exactly once. Lemmas connect the listings to booking and cancelling.
- `sessions.dfy` (module `Sessions`) runs sequences of requests.
  - The invariant holds in every store reachable from empty tables.
  - Booking then cancelling restores both tables, and the slot can then be
    booked again under a new id.
  - A two-user scenario runs from start to finish.

Dates are day numbers and times are minutes since midnight. Comparing them as
integers orders them the way the SQL `ORDER BY Date, StartTime` and
`Date >= CURRENT_DATE` do. `CURRENT_DATE` is the parameter `today`. The caller's
id is an input that the model trusts.

## Model

| member | source | states |
|---|---|---|
| Transactions.Book | appointment-system/backend/server.js:117-158 | The booking succeeds exactly when the named slot exists and is available and no statement fails. The 400 "Slot no longer available" comes exactly when the check ran and found no such slot (an absent `slot_id` included). Any non-success leaves both tables unchanged. A success inserts `(caller, slot, notes)` under the next sequence value, which is fresh in a well-formed store, so the table grows by exactly one row. A success makes exactly that slot unavailable and leaves the other slots alone. The appointment sequence advances exactly when the INSERT got as far as drawing its id. That includes an INSERT rejected by a constraint afterwards, and an INSERT whose transaction a later statement rolls back. |
| Transactions.Cancel | appointment-system/backend/server.js:205-238 | The cancellation succeeds exactly when the appointment exists, belongs to the caller, and no statement fails. The 404 comes exactly when the lookup ran and matched nothing, so another user's appointment answers 404. Any non-success leaves the whole store unchanged. A success removes exactly that appointment and makes exactly its slot available. Every other row stays the same. |
| Transactions.CreateSlot | appointment-system/backend/server.js:179-203 | The 400 comes exactly when `date`, `start_time` or `end_time` is missing. The 201 comes exactly when all three are present and the INSERT succeeds. On 201, one new available slot with those times is inserted under the next sequence value and every other row is unchanged. A 400 leaves the store unchanged. Any other failure adds no slot. The slot sequence advances exactly when the INSERT got as far as drawing its id, even if the row is then rejected. Appointments are never touched. |
| Transactions.BookPreservesConsistent | appointment-system/backend/server.js:126-148 | From a consistent store, every outcome of a booking leaves a consistent store. |
| Transactions.BookedStoreConsistent | appointment-system/backend/server.js:137-148 | From a consistent store, inserting an appointment for an available slot under the next id and marking that slot unavailable gives a consistent store. Only advancing the sequence also gives a consistent store. |
| Transactions.CancelPreservesConsistent | appointment-system/backend/server.js:210-228 | From a consistent store, every outcome of a cancellation leaves a consistent store. |
| Transactions.CreateSlotPreservesConsistent | appointment-system/backend/server.js:189-195 | From a consistent store, every outcome of slot creation leaves a consistent store. |
| Transactions.NoDoubleBooking | appointment-system/backend/server.js:126-134 | In a consistent store, booking a slot that already has an appointment never succeeds. Once the check runs, it answers "Slot no longer available", and the appointments are unchanged. |
| Server.Store.PostAppointment | appointment-system/backend/server.js:117-158 | Running BEGIN, SELECT, INSERT, UPDATE and COMMIT on the maps, with rollback to the BEGIN snapshot, gives exactly the response and store of `Book`. The INSERT draws its id before its row can be rejected, so the id stays used on every later failure. The handler keeps the invariant. |
| Server.Store.DeleteAppointment | appointment-system/backend/server.js:205-238 | Running BEGIN, SELECT, DELETE, UPDATE and COMMIT on the maps, with rollback, gives exactly the response and store of `Cancel`. The handler keeps the invariant. |
| Server.Store.PostSlot | appointment-system/backend/server.js:179-203 | Validating and then inserting into the map, with no transaction, gives exactly the response and store of `CreateSlot`. A row rejected after its id is drawn still uses up that id. The handler keeps the invariant. |
| Listings.SortBy | appointment-system/backend/server.js:106 | The result is a permutation of the input, sorted by the `(date, start time)` key. |
| Listings.AvailableBelow | appointment-system/backend/server.js:103-105 | At ids below the bound, each stored slot that is available and dated today or later appears exactly once, and no other row appears. |
| Listings.AvailableSlots | appointment-system/backend/server.js:99-114 | The rows are sorted by date, then start time. Every row is a stored, available slot dated today or later, in any store. In a well-formed store, every such slot appears exactly once. |
| Listings.CallerAppointmentsBelow | appointment-system/backend/server.js:164-167 | At ids below the bound, each of the caller's appointments whose slot exists appears exactly once, joined with that slot's date and times, and no other row appears. |
| Listings.CallerAppointments | appointment-system/backend/server.js:160-177 | The rows are sorted by the slot's date, then start time. Every row is one of the caller's appointments joined with its slot, in any store. In a well-formed store, every such appointment appears exactly once. |
| Listings.JoinKeepsEveryAppointment | appointment-system/backend/server.js:164-167 | In a consistent store the inner join drops nothing: each of the caller's appointments has a row in the listing. |
| Listings.SlotListingIdsDistinct | appointment-system/backend/server.js:102-106 | In any store, no slot id appears twice in the slot listing. |
| Listings.BookedSlotLeavesListing | appointment-system/backend/server.js:145-148 | After a successful booking, in any store, the booked slot is no longer in the slot listing. |
| Listings.BookedAppointmentListed | appointment-system/backend/server.js:137-142 | In any store, after a successful booking, the new appointment, joined with its slot, is in the caller's listing. |
| Listings.CancelledSlotListed | appointment-system/backend/server.js:225-228 | In a well-formed store, after a successful cancellation whose appointment's slot exists, the freed slot is listed again, now available, provided its date is today or later. |
| Sessions.ApplyPreservesConsistent | appointment-system/backend/server.js:117-238 | Any single writing request keeps the invariant. |
| Sessions.RunPreservesConsistent | appointment-system/backend/server.js:117-238 | Any sequence of writing requests, with any store failures, keeps the invariant. |
| Schema.TwoStates | appointment-system/backend/server.js:137-148 | In a consistent store, a slot is unavailable exactly when some appointment holds it. |
| Sessions.ReachableConsistent | appointment-system/backend/server.js:117-238 | Every store reachable from empty tables is consistent. In it, every appointment's slot exists and is unavailable, every unavailable slot has an appointment, and no slot has two appointments. So each slot is unavailable exactly when an appointment holds it. |
| Sessions.BookThenCancel | appointment-system/backend/server.js:117-238 | In a well-formed store, booking an available slot and then cancelling that appointment as the same user gives back the store exactly as it was, except that the appointment sequence has advanced by one. |
| Sessions.BookCancelRoundTrip | appointment-system/backend/server.js:117-238 | In a well-formed store, booking an available slot, then cancelling that appointment as the same user, restores both tables exactly. A second booking of the slot, by anyone, then succeeds with an id different from the first. |
| Sessions.TwoUserScenario | appointment-system/backend/server.js:117-238 | A 09:00-10:00 slot is created. User a books it and the slot becomes unavailable. User b is refused with 400. User b cannot cancel a's appointment (404, nothing changes). User a cancels and the slot is available again. User b then books it. |

## Left out

- Express routing, CORS, JSON body parsing and the shape of the JSON bodies (server.js:1-30, 240-242) are not modelled. Responses keep only their status code and the row the handler returns.
- Token issuance and checking (`authenticateToken`, server.js:33-44, and the `jwt.sign` at server.js:89) are not modelled. The caller's id is a trusted input.
- Registration and login (server.js:47-96) are not modelled. They consist of bcrypt hashing and comparison, which are foreign library calls, and the email-uniqueness constraint, which lives in the database.
- The connection pool is not modelled: acquiring and releasing clients is I/O. A failing `pool.connect()` sits outside the handlers' `try`, so the handler's own `catch` never sees that error. What the client then receives depends on the Express version, which the sources do not fix. That case is not modelled.
- The table definitions are not part of the sources. The model assumes that each table's id is drawn from its own sequence, that each sequence starts at 1 and that a ROLLBACK does not give back a drawn value. This is PostgreSQL's behaviour for a `SERIAL` column.
- Store errors are an input (`failing`), not a cause the model explains. Such errors include a lost connection, a malformed id or date string that PostgreSQL refuses, and a foreign-key violation. Which INSERT failures come after the id is drawn is also an input (`InsertConstraint`). A failing `ROLLBACK` is not modelled: the model assumes every rollback succeeds.
- Concurrency between requests is not modelled; each transaction is taken as one sequential step. The booking code reads the slot (server.js:126-129) and later updates it (server.js:145-148) without a row lock or a conditional update. Under PostgreSQL's default isolation, two concurrent bookings of one slot can therefore both succeed. The invariant proved here holds only for requests that run one at a time.
- The read-only queries can fail with 500 and then change nothing. That outcome is not modelled: the listing functions give only the rows.
- Listings.AvailableSlots: rows that tie on `(date, start time)` come in id order here. SQL leaves the order of such rows unspecified, so the contract states only the sort order and which rows appear.
- Listings.AvailableSlots: the statement that every qualifying slot appears, and only once, is made for well-formed stores, where every id is below its sequence. That nothing else appears holds in every store. Every store reachable through the handlers is well-formed (Sessions.ReachableConsistent).
- Listings.CallerAppointments: as for AvailableSlots, completeness is stated for well-formed stores and soundness for all stores. Ties come in id order.
- Strings are not parsed. A create-slot field counts as missing when JavaScript finds it falsy (absent, `null`, empty). Dates and times are integers.
- Overlapping or inverted slot times are accepted, as in the source. No lemma is stated about them.
