/**
 * What one request does to the store, as a function of the store before it:
 * the booking transaction (POST /api/appointments), the cancellation
 * transaction (DELETE /api/appointments/:id) and slot creation
 * (POST /api/slots). A transaction runs its statements in order; the first
 * statement that fails sends control to the handler's catch block, whose
 * ROLLBACK undoes every table write. Values drawn from an id sequence are not
 * given back by a ROLLBACK. Slot creation is a single INSERT outside any
 * transaction.
 */
module Transactions {
  import opened Schema

  /** A response and the store after the request. */
  datatype Step<R> = Step(response: R, after: Database)

  datatype BookResponse =
    | Booked(id: AppointmentId, row: Appointment)  // the inserted row, as RETURNING * gives it
    | SlotNoLongerAvailable                         // "Slot no longer available"
    | BookFailed                                    // a store error
  {
    function Status(): (code: int) {
      match this
      case Booked(_, _) => 200
      case SlotNoLongerAvailable => 400
      case BookFailed => 500
    }
  }

  datatype CancelResponse =
    | Cancelled            // "Appointment cancelled successfully"
    | AppointmentNotFound  // "Appointment not found"
    | CancelFailed         // a store error
  {
    function Status(): (code: int) {
      match this
      case Cancelled => 200
      case AppointmentNotFound => 404
      case CancelFailed => 500
    }
  }

  datatype CreateSlotResponse =
    | SlotCreated(id: SlotId, row: Slot)  // the inserted row, as RETURNING * gives it
    | MissingRequiredFields               // "Missing required fields"
    | CreateSlotFailed                    // a store error
  {
    function Status(): (code: int) {
      match this
      case SlotCreated(_, _) => 201
      case MissingRequiredFields => 400
      case CreateSlotFailed => 500
    }
  }

  /**
   * The availability check finds a row: the request names a slot that exists
   * and is available. An absent slot_id compares as NULL and matches nothing.
   */
  predicate Bookable(slots: map<SlotId, Slot>, slotId: Option<SlotId>) {
    slotId.Some? && slotId.value in slots && slots[slotId.value].isAvailable
  }

  /** The ownership check finds a row: the appointment exists and belongs to the caller. */
  predicate Owns(db: Database, caller: UserId, id: AppointmentId) {
    id in db.appointments && db.appointments[id].userId == caller
  }

  /** The slot the request names, now marked with the given availability. */
  function SetAvailability(slots: map<SlotId, Slot>, sid: SlotId, available: bool): (updated: map<SlotId, Slot>) {
    if sid in slots then slots[sid := slots[sid].(isAvailable := available)] else slots
  }

  /**
   * Booking: BEGIN; check the slot; INSERT the appointment; mark the slot
   * unavailable; COMMIT. Any failing statement rolls the tables back; an
   * INSERT that fails after drawing its id leaves the sequence advanced.
   */
  function Book(db: Database, caller: UserId, slotId: Option<SlotId>, notes: Option<string>,
                failing: set<Stmt>): (r: Step<BookResponse>)
    // succeeds exactly when the slot is bookable and no statement fails
    ensures r.response.Booked? <==>
      && Bookable(db.slots, slotId)
      && Begin !in failing && Select !in failing && Insert !in failing
      && InsertConstraint !in failing && Update !in failing && Commit !in failing
    // rejected with 400 exactly when the check itself ran and found no available slot
    ensures r.response.Status() == 400 <==>
      Begin !in failing && Select !in failing && !Bookable(db.slots, slotId)
    // a rejected or failed booking leaves both tables as they were
    ensures !r.response.Booked? ==> r.after.slots == db.slots && r.after.appointments == db.appointments
    // a success inserts (caller, slot, notes) under the next sequence value ...
    ensures r.response.Booked? ==>
      && r.response.id == db.appointmentSeq
      && r.response.row == Appointment(caller, slotId.value, notes)
      && r.after.appointments.Keys == db.appointments.Keys + {r.response.id}
      && r.after.appointments[r.response.id] == r.response.row
      && (forall a :: a in db.appointments && a != r.response.id ==>
            r.after.appointments[a] == db.appointments[a])
    // ... and turns exactly that slot unavailable, nothing else in it
    ensures r.response.Booked? ==>
      && r.after.slots.Keys == db.slots.Keys
      && r.after.slots[slotId.value] == db.slots[slotId.value].(isAvailable := false)
      && (forall s :: s in db.slots && s != slotId.value ==> r.after.slots[s] == db.slots[s])
    // over a well-formed store the new id is fresh and the table grows by one row
    ensures WellFormed(db) && r.response.Booked? ==>
      r.response.id !in db.appointments && |r.after.appointments| == |db.appointments| + 1
    // the appointment sequence advances once the INSERT has drawn its id, even if the INSERT's
    // constraint check or a later statement fails
    ensures r.after.slotSeq == db.slotSeq
    ensures r.after.appointmentSeq ==
      if Begin !in failing && Select !in failing && Bookable(db.slots, slotId) && Insert !in failing
      then db.appointmentSeq + 1 else db.appointmentSeq
  {
    if Begin in failing || Select in failing then
      Step(BookFailed, db)
    else if !Bookable(db.slots, slotId) then
      Step(SlotNoLongerAvailable, db)
    else if Insert in failing then
      Step(BookFailed, db)
    else
      var id := db.appointmentSeq;
      var row := Appointment(caller, slotId.value, notes);
      if InsertConstraint in failing || Update in failing || Commit in failing then
        Step(BookFailed, db.(appointmentSeq := id + 1))
      else
        Step(Booked(id, row),
             Database(SetAvailability(db.slots, slotId.value, false),
                      db.appointments[id := row], db.slotSeq, id + 1))
  }

  /**
   * Cancelling: BEGIN; look the appointment up by id and owner; DELETE it;
   * mark its slot available; COMMIT. Any failing statement rolls the tables back.
   */
  function Cancel(db: Database, caller: UserId, id: AppointmentId, failing: set<Stmt>): (r: Step<CancelResponse>)
    // succeeds exactly when the caller owns the appointment and no statement fails
    ensures r.response == Cancelled <==>
      && Owns(db, caller, id)
      && Begin !in failing && Select !in failing && Delete !in failing
      && Update !in failing && Commit !in failing
    // 404 exactly when the lookup ran and found nothing: a missing id or another user's appointment
    ensures r.response.Status() == 404 <==>
      Begin !in failing && Select !in failing && !Owns(db, caller, id)
    // anything but a success leaves the whole store as it was
    ensures r.response != Cancelled ==> r.after == db
    // a success removes exactly that appointment ...
    ensures r.response == Cancelled ==>
      && r.after.appointments.Keys == db.appointments.Keys - {id}
      && (forall a :: a in r.after.appointments ==> r.after.appointments[a] == db.appointments[a])
    // ... and makes exactly its slot available again, nothing else in it
    ensures r.response == Cancelled ==>
      var sid := db.appointments[id].slotId;
      && r.after.slots.Keys == db.slots.Keys
      && (sid in db.slots ==> r.after.slots[sid] == db.slots[sid].(isAvailable := true))
      && (forall s :: s in db.slots && s != sid ==> r.after.slots[s] == db.slots[s])
    ensures r.after.slotSeq == db.slotSeq && r.after.appointmentSeq == db.appointmentSeq
  {
    if Begin in failing || Select in failing then
      Step(CancelFailed, db)
    else if !Owns(db, caller, id) then
      Step(AppointmentNotFound, db)
    else if Delete in failing || Update in failing || Commit in failing then
      Step(CancelFailed, db)
    else
      var sid := db.appointments[id].slotId;
      Step(Cancelled, db.(appointments := db.appointments - {id},
                          slots := SetAvailability(db.slots, sid, true)))
  }

  /**
   * Creating a slot: reject a request that lacks any of date, start_time and
   * end_time before touching the store; otherwise INSERT an available slot.
   * There is no transaction: a failed INSERT stores no row. A field the
   * handler finds falsy is None.
   */
  function CreateSlot(db: Database, date: Option<Date>, startTime: Option<Time>, endTime: Option<Time>,
                      failing: set<Stmt>): (r: Step<CreateSlotResponse>)
    // 400 exactly when a required field is missing
    ensures r.response.Status() == 400 <==> date.None? || startTime.None? || endTime.None?
    // 201 exactly when every field is present and the INSERT succeeds
    ensures r.response.Status() == 201 <==>
      date.Some? && startTime.Some? && endTime.Some? && Insert !in failing && InsertConstraint !in failing
    ensures r.response.SlotCreated? <==> r.response.Status() == 201
    // a rejected request touches nothing; a failed INSERT adds no slot
    ensures r.response == MissingRequiredFields ==> r.after == db
    ensures !r.response.SlotCreated? ==> r.after.slots == db.slots
    // the slot sequence advances once the INSERT has drawn its id, even if the row is then rejected
    ensures r.after.slotSeq ==
      if date.Some? && startTime.Some? && endTime.Some? && Insert !in failing
      then db.slotSeq + 1 else db.slotSeq
    // a success inserts one available slot with the given times under the next sequence value
    ensures r.response.SlotCreated? ==>
      && r.response.id == db.slotSeq
      && r.response.row == Slot(date.value, startTime.value, endTime.value, true)
      && r.after.slots.Keys == db.slots.Keys + {r.response.id}
      && r.after.slots[r.response.id] == r.response.row
      && (forall s :: s in db.slots && s != r.response.id ==> r.after.slots[s] == db.slots[s])
      && r.after.slotSeq == db.slotSeq + 1
    ensures WellFormed(db) && r.response.SlotCreated? ==>
      r.response.id !in db.slots && |r.after.slots| == |db.slots| + 1
    // slot creation never touches the appointments
    ensures r.after.appointments == db.appointments && r.after.appointmentSeq == db.appointmentSeq
  {
    if date.None? || startTime.None? || endTime.None? then
      Step(MissingRequiredFields, db)
    else if Insert in failing then
      Step(CreateSlotFailed, db)
    else if InsertConstraint in failing then
      Step(CreateSlotFailed, db.(slotSeq := db.slotSeq + 1))
    else
      var id := db.slotSeq;
      var row := Slot(date.value, startTime.value, endTime.value, true);
      Step(SlotCreated(id, row), db.(slots := db.slots[id := row], slotSeq := id + 1))
  }

  lemma BookPreservesConsistent(db: Database, caller: UserId, slotId: Option<SlotId>,
                                notes: Option<string>, failing: set<Stmt>)
    requires Consistent(db)
    ensures Consistent(Book(db, caller, slotId, notes, failing).after)
  {
    if Bookable(db.slots, slotId) {
      BookedStoreConsistent(db, slotId.value, Appointment(caller, slotId.value, notes));
    }
  }

  /** Inserting an appointment for an available slot and marking the slot taken keeps the invariant. */
  lemma BookedStoreConsistent(db: Database, sid: SlotId, row: Appointment)
    requires Consistent(db) && sid in db.slots && db.slots[sid].isAvailable && row.slotId == sid
    ensures Consistent(db.(appointmentSeq := db.appointmentSeq + 1))
    ensures Consistent(Database(SetAvailability(db.slots, sid, false), db.appointments[db.appointmentSeq := row],
                                db.slotSeq, db.appointmentSeq + 1))
  {
    // an available slot has no appointment yet, so the new one is its only one
    assert forall a :: a in db.appointments ==> db.appointments[a].slotId != sid;
    var id := db.appointmentSeq;
    var after := Database(SetAvailability(db.slots, sid, false), db.appointments[id := row], db.slotSeq, id + 1);
    // every slot taken before keeps its appointment, and the booked slot has the new one
    assert id !in db.appointments;
    forall s | s in after.slots && !after.slots[s].isAvailable
      ensures exists a :: a in after.appointments && after.appointments[a].slotId == s
    {
      if s == sid {
        assert after.appointments[id].slotId == s;
      } else {
        var a :| a in db.appointments && db.appointments[a].slotId == s;
        assert after.appointments[a].slotId == s;
      }
    }
  }

  lemma CancelPreservesConsistent(db: Database, caller: UserId, id: AppointmentId, failing: set<Stmt>)
    requires Consistent(db)
    ensures Consistent(Cancel(db, caller, id, failing).after)
  {
  }

  lemma CreateSlotPreservesConsistent(db: Database, date: Option<Date>, startTime: Option<Time>,
                                      endTime: Option<Time>, failing: set<Stmt>)
    requires Consistent(db)
    ensures Consistent(CreateSlot(db, date, startTime, endTime, failing).after)
  {
  }

  /** In a consistent store, a slot that already has an appointment cannot be booked again. */
  lemma NoDoubleBooking(db: Database, existing: AppointmentId, caller: UserId,
                        notes: Option<string>, failing: set<Stmt>)
    requires Consistent(db) && existing in db.appointments
    ensures var r := Book(db, caller, Some(db.appointments[existing].slotId), notes, failing);
      && !r.response.Booked?
      && (Begin !in failing && Select !in failing ==> r.response == SlotNoLongerAvailable)
      && r.after.appointments == db.appointments
  {
  }
}
