/**
 * Requests run one after another against the store: the invariant holds in
 * every reachable state, and booking then cancelling a slot is a round trip.
 */
module Sessions {
  import opened Schema
  import opened Transactions

  /** One of the three writing requests, with the statements the store fails on. */
  datatype Request =
    | BookRequest(caller: UserId, slotId: Option<SlotId>, notes: Option<string>, failing: set<Stmt>)
    | CancelRequest(caller: UserId, id: AppointmentId, failing: set<Stmt>)
    | CreateSlotRequest(date: Option<Date>, startTime: Option<Time>, endTime: Option<Time>, failing: set<Stmt>)

  function Apply(db: Database, req: Request): (after: Database) {
    match req
    case BookRequest(caller, slotId, notes, failing) => Book(db, caller, slotId, notes, failing).after
    case CancelRequest(caller, id, failing) => Cancel(db, caller, id, failing).after
    case CreateSlotRequest(date, startTime, endTime, failing) => CreateSlot(db, date, startTime, endTime, failing).after
  }

  /** The store after the requests, in order. */
  function Run(db: Database, reqs: seq<Request>): (after: Database)
    decreases |reqs|
  {
    if reqs == [] then db else Run(Apply(db, reqs[0]), reqs[1..])
  }

  lemma ApplyPreservesConsistent(db: Database, req: Request)
    requires Consistent(db)
    ensures Consistent(Apply(db, req))
  {
    match req
    case BookRequest(caller, slotId, notes, failing) =>
      BookPreservesConsistent(db, caller, slotId, notes, failing);
    case CancelRequest(caller, id, failing) =>
      CancelPreservesConsistent(db, caller, id, failing);
    case CreateSlotRequest(date, startTime, endTime, failing) =>
      CreateSlotPreservesConsistent(db, date, startTime, endTime, failing);
  }

  lemma {:induction false} RunPreservesConsistent(db: Database, reqs: seq<Request>)
    requires Consistent(db)
    ensures Consistent(Run(db, reqs))
    decreases |reqs|
  {
    if reqs != [] {
      ApplyPreservesConsistent(db, reqs[0]);
      RunPreservesConsistent(Apply(db, reqs[0]), reqs[1..]);
    }
  }

  /**
   * From empty tables, whatever requests arrive and whichever statements
   * fail: every appointment's slot exists and is unavailable, and no slot
   * has two appointments.
   */
  lemma ReachableConsistent(reqs: seq<Request>)
    ensures Consistent(Run(Empty, reqs))
    // each slot is available exactly when no appointment holds it
    ensures var db := Run(Empty, reqs);
      forall s :: s in db.slots ==> (!db.slots[s].isAvailable <==> HasAppointment(db, s))
  {
    RunPreservesConsistent(Empty, reqs);
    var db := Run(Empty, reqs);
    forall s | s in db.slots
      ensures !db.slots[s].isAvailable <==> HasAppointment(db, s)
    {
      TwoStates(db, s);
    }
  }

  /**
   * Booking an available slot and cancelling that appointment as the same
   * user gives back the store as it was, except that the appointment
   * sequence has moved on by one.
   */
  lemma BookThenCancel(db: Database, caller: UserId, sid: SlotId, notes: Option<string>)
    requires WellFormed(db)
    requires sid in db.slots && db.slots[sid].isAvailable
    ensures var booked := Book(db, caller, Some(sid), notes, {});
      && booked.response == Booked(db.appointmentSeq, Appointment(caller, sid, notes))
      && var cancelled := Cancel(booked.after, caller, booked.response.id, {});
      && cancelled.response == Cancelled
      && cancelled.after == db.(appointmentSeq := db.appointmentSeq + 1)
  {
    var id, row := db.appointmentSeq, Appointment(caller, sid, notes);
    var booked := Book(db, caller, Some(sid), notes, {});
    var cancelled := Cancel(booked.after, caller, id, {});
    assert cancelled.after.slots == db.slots by {
      assert db.slots[sid].(isAvailable := false).(isAvailable := true) == db.slots[sid];
    }
    assert cancelled.after.appointments == db.appointments by {
      assert id !in db.appointments;
    }
  }

  /**
   * Booking an available slot and cancelling that appointment as the same
   * user restores both tables; the slot can then be booked again, under a
   * new id.
   */
  lemma BookCancelRoundTrip(db: Database, caller: UserId, sid: SlotId, notes: Option<string>,
                            nextCaller: UserId, nextNotes: Option<string>)
    requires WellFormed(db)
    requires sid in db.slots && db.slots[sid].isAvailable
    ensures var booked := Book(db, caller, Some(sid), notes, {});
      && booked.response.Booked?
      && var cancelled := Cancel(booked.after, caller, booked.response.id, {});
      && cancelled.response == Cancelled
      && cancelled.after.slots == db.slots
      && cancelled.after.appointments == db.appointments
      && var rebooked := Book(cancelled.after, nextCaller, Some(sid), nextNotes, {});
      && rebooked.response.Booked?
      && rebooked.response.id != booked.response.id
  {
    BookThenCancel(db, caller, sid, notes);
  }

  /**
   * A slot from 09:00 to 10:00: user a books it; user b is turned away
   * with 400; a cancels; b books it.
   */
  lemma TwoUserScenario(a: UserId, b: UserId, day: Date)
    requires a != b
    ensures
      var created := CreateSlot(Empty, Some(day), Some(9 * 60), Some(10 * 60), {});
      && created.response.SlotCreated?
      && var sid := created.response.id;
      && var first := Book(created.after, a, Some(sid), None, {});
      && first.response.Booked?
      && !first.after.slots[sid].isAvailable
      && var second := Book(first.after, b, Some(sid), None, {});
      && second.response == SlotNoLongerAvailable && second.response.Status() == 400
      && var stolen := Cancel(second.after, b, first.response.id, {});
      && stolen.response == AppointmentNotFound && stolen.after == second.after
      && var cancelled := Cancel(second.after, a, first.response.id, {});
      && cancelled.response == Cancelled
      && cancelled.after.slots[sid].isAvailable
      && var third := Book(cancelled.after, b, Some(sid), None, {});
      && third.response.Booked? && third.response.row.userId == b
  {
  }
}
