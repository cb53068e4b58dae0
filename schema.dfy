/**
 * The two tables of the booking backend (appointment-system/backend/server.js):
 * Slots(Id, Date, StartTime, EndTime, IsAvailable) and
 * Appointments(Id, UserId, SlotId, Notes), each with an id sequence,
 * and the invariant that the booking transactions keep.
 */
module Schema {

  datatype Option<T> = None | Some(value: T)

  /** The caller's id, taken from the verified token. */
  type UserId = int
  type SlotId = nat
  type AppointmentId = nat

  /** A calendar date as a day number: later dates are larger. */
  type Date = int
  /** A time of day in minutes since midnight. */
  type Time = int

  datatype Slot = Slot(date: Date, startTime: Time, endTime: Time, isAvailable: bool)

  datatype Appointment = Appointment(userId: UserId, slotId: SlotId, notes: Option<string>)

  /**
   * The store: both tables as maps from id to row, and the next value of
   * each table's id sequence.
   */
  datatype Database = Database(
    slots: map<SlotId, Slot>,
    appointments: map<AppointmentId, Appointment>,
    slotSeq: nat,
    appointmentSeq: nat)

  /** Empty tables; each id sequence hands out 1 first. */
  const Empty: Database := Database(map[], map[], 1, 1)

  /**
   * The points at which a request's statements may fail. An INSERT can fail
   * in two places: before it draws its id from the sequence (Insert, as when
   * the connection is lost), or after it has drawn one (InsertConstraint, as
   * when a constraint such as a foreign key rejects the row).
   */
  datatype Stmt = Begin | Select | Insert | InsertConstraint | Update | Delete | Commit

  /** Every id in use was handed out by its sequence, so the next value is fresh. */
  predicate WellFormed(db: Database) {
    && (forall id :: id in db.slots ==> id < db.slotSeq)
    && (forall id :: id in db.appointments ==> id < db.appointmentSeq)
  }

  /** Every appointment refers to an existing slot that is marked unavailable. */
  predicate SlotsOfAppointmentsBooked(db: Database) {
    forall id :: id in db.appointments ==>
      && db.appointments[id].slotId in db.slots
      && !db.slots[db.appointments[id].slotId].isAvailable
  }

  /** No slot is referred to by two appointments. */
  predicate AtMostOneAppointmentPerSlot(db: Database) {
    forall a, b ::
      a in db.appointments && b in db.appointments &&
      db.appointments[a].slotId == db.appointments[b].slotId
      ==> a == b
  }

  /** Some appointment holds the slot. */
  predicate HasAppointment(db: Database, s: SlotId) {
    exists a :: a in db.appointments && db.appointments[a].slotId == s
  }

  /** A slot marked unavailable is held by some appointment: the converse of SlotsOfAppointmentsBooked. */
  predicate UnavailableSlotsBooked(db: Database) {
    forall s :: s in db.slots && !db.slots[s].isAvailable ==> HasAppointment(db, s)
  }

  /**
   * The invariant that booking, cancelling and creating slots preserve.
   * Together, SlotsOfAppointmentsBooked and UnavailableSlotsBooked make each
   * slot's flag say exactly whether it is booked.
   */
  predicate Consistent(db: Database) {
    && WellFormed(db)
    && SlotsOfAppointmentsBooked(db)
    && UnavailableSlotsBooked(db)
    && AtMostOneAppointmentPerSlot(db)
  }

  /** In a consistent store each slot is in one of two states: available and free, or unavailable and booked. */
  lemma TwoStates(db: Database, s: SlotId)
    requires Consistent(db) && s in db.slots
    ensures !db.slots[s].isAvailable <==> HasAppointment(db, s)
  {
  }
}
