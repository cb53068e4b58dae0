/**
 * The two read-only queries of appointment-system/backend/server.js:
 * GET /api/slots (available slots from today on) and GET /api/appointments
 * (the caller's appointments joined with their slot's times), both ordered
 * by date, then start time. Rows that tie on that key may come in any order;
 * this model breaks ties by id.
 */
module Listings {
  import opened Schema
  import opened Transactions

  /** The ORDER BY key: date, then start time. */
  type Key = (Date, Time)

  predicate KeyLe(a: Key, b: Key) {
    a.0 < b.0 || (a.0 == b.0 && a.1 <= b.1)
  }

  predicate SortedBy<T>(s: seq<T>, key: T -> Key) {
    forall i, j :: 0 <= i < j < |s| ==> KeyLe(key(s[i]), key(s[j]))
  }

  /** Puts x into a sorted sequence, after every element whose key is below x's. */
  function InsertBy<T>(x: T, s: seq<T>, key: T -> Key): (r: seq<T>)
    requires SortedBy(s, key)
    ensures multiset(r) == multiset(s) + multiset{x}
    ensures SortedBy(r, key)
  {
    if s == [] then [x]
    else if KeyLe(key(x), key(s[0])) then [x] + s
    else
      var rest := InsertBy(x, s[1..], key);
      assert forall y :: y in rest ==> KeyLe(key(s[0]), key(y)) by {
        forall y | y in rest ensures KeyLe(key(s[0]), key(y)) {
          assert y in multiset(rest);
          assert y == x || y in multiset(s[1..]);
          if y != x {
            var k :| 1 <= k < |s| && s[k] == y;
          }
        }
      }
      PrependSorted(s[0], rest, key);
      assert s == [s[0]] + s[1..];
      [s[0]] + rest
  }

  lemma PrependSorted<T>(h: T, t: seq<T>, key: T -> Key)
    requires SortedBy(t, key)
    requires forall y :: y in t ==> KeyLe(key(h), key(y))
    ensures SortedBy([h] + t, key)
  {
  }

  /** Insertion sort: the ORDER BY of both queries. */
  function SortBy<T>(s: seq<T>, key: T -> Key): (r: seq<T>)
    ensures multiset(r) == multiset(s)
    ensures SortedBy(r, key)
  {
    if s == [] then []
    else
      assert s == [s[0]] + s[1..];
      InsertBy(s[0], SortBy(s[1..], key), key)
  }

  // ---------------------------------------------------------------- GET /api/slots

  datatype SlotRow = SlotRow(id: SlotId, slot: Slot)

  function SlotKey(row: SlotRow): (k: Key) {
    (row.slot.date, row.slot.startTime)
  }

  /** A row the slot query selects: a stored, available slot dated today or later. */
  predicate SlotListed(slots: map<SlotId, Slot>, today: Date, row: SlotRow) {
    row.id in slots && slots[row.id] == row.slot && row.slot.isAvailable && row.slot.date >= today
  }

  /** The rows with an id below n that the WHERE clause keeps, in order of id. */
  function AvailableBelow(slots: map<SlotId, Slot>, today: Date, n: nat): (rows: seq<SlotRow>)
    ensures forall row :: multiset(rows)[row] == if row.id < n && SlotListed(slots, today, row) then 1 else 0
  {
    if n == 0 then []
    else
      var rest := AvailableBelow(slots, today, n - 1);
      var id := n - 1;
      if id in slots && slots[id].isAvailable && slots[id].date >= today then
        rest + [SlotRow(id, slots[id])]
      else
        rest
  }

  /**
   * SELECT * FROM Slots WHERE IsAvailable = true AND Date >= CURRENT_DATE
   * ORDER BY Date, StartTime; today is CURRENT_DATE.
   */
  function AvailableSlots(db: Database, today: Date): (rows: seq<SlotRow>)
    ensures SortedBy(rows, SlotKey)
    // only available slots from today on appear ...
    ensures forall row :: row in rows ==> SlotListed(db.slots, today, row)
    // ... and in a well-formed store every one of them appears, exactly once
    ensures WellFormed(db) ==>
      forall row :: multiset(rows)[row] == if SlotListed(db.slots, today, row) then 1 else 0
  {
    SortBy(AvailableBelow(db.slots, today, db.slotSeq), SlotKey)
  }

  // --------------------------------------------------------- GET /api/appointments

  /** An appointment row with its slot's date and times (SELECT a.*, s.Date, s.StartTime, s.EndTime). */
  datatype AppointmentRow = AppointmentRow(
    id: AppointmentId, userId: UserId, slotId: SlotId, notes: Option<string>,
    date: Date, startTime: Time, endTime: Time)

  function AppointmentKey(row: AppointmentRow): (k: Key) {
    (row.date, row.startTime)
  }

  function Joined(id: AppointmentId, a: Appointment, s: Slot): (row: AppointmentRow) {
    AppointmentRow(id, a.userId, a.slotId, a.notes, s.date, s.startTime, s.endTime)
  }

  /** A row the appointment query selects: one of the caller's appointments, joined with its slot. */
  predicate AppointmentListed(db: Database, caller: UserId, row: AppointmentRow) {
    && row.id in db.appointments
    && db.appointments[row.id].userId == caller
    && db.appointments[row.id].slotId in db.slots
    && row == Joined(row.id, db.appointments[row.id], db.slots[db.appointments[row.id].slotId])
  }

  /** The joined rows with an id below n that the WHERE clause keeps, in order of id. */
  function CallerAppointmentsBelow(db: Database, caller: UserId, n: nat): (rows: seq<AppointmentRow>)
    ensures forall row :: multiset(rows)[row] == if row.id < n && AppointmentListed(db, caller, row) then 1 else 0
  {
    if n == 0 then []
    else
      var rest := CallerAppointmentsBelow(db, caller, n - 1);
      var id := n - 1;
      if id in db.appointments && db.appointments[id].userId == caller && db.appointments[id].slotId in db.slots then
        rest + [Joined(id, db.appointments[id], db.slots[db.appointments[id].slotId])]
      else
        rest
  }

  /**
   * SELECT a.*, s.Date, s.StartTime, s.EndTime FROM Appointments a
   * JOIN Slots s ON a.SlotId = s.Id WHERE a.UserId = $1 ORDER BY s.Date, s.StartTime
   */
  function CallerAppointments(db: Database, caller: UserId): (rows: seq<AppointmentRow>)
    ensures SortedBy(rows, AppointmentKey)
    // only the caller's appointments, joined with their slots, appear ...
    ensures forall row :: row in rows ==> AppointmentListed(db, caller, row)
    // ... and in a well-formed store every one of them appears, exactly once
    ensures WellFormed(db) ==>
      forall row :: multiset(rows)[row] == if AppointmentListed(db, caller, row) then 1 else 0
  {
    SortBy(CallerAppointmentsBelow(db, caller, db.appointmentSeq), AppointmentKey)
  }

  // ------------------------------------------------------------------- lemmas

  /** In a consistent store the inner join loses nothing: each of the caller's appointments is listed. */
  lemma JoinKeepsEveryAppointment(db: Database, caller: UserId, id: AppointmentId)
    requires Consistent(db)
    requires id in db.appointments && db.appointments[id].userId == caller
    ensures exists row :: row in CallerAppointments(db, caller) && row.id == id
  {
    var a := db.appointments[id];
    var row := Joined(id, a, db.slots[a.slotId]);
    assert multiset(CallerAppointments(db, caller))[row] == 1;
  }

  /** Slot ids appear at most once in the slot listing. */
  lemma SlotListingIdsDistinct(db: Database, today: Date, i: nat, j: nat)
    requires i < j < |AvailableSlots(db, today)|
    ensures AvailableSlots(db, today)[i].id != AvailableSlots(db, today)[j].id
  {
    var rows := AvailableSlots(db, today);
    // the sort keeps the filter's rows, each of which occurs at most once
    assert multiset(rows) == multiset(AvailableBelow(db.slots, today, db.slotSeq));
    assert rows[i] in multiset(rows) && rows[j] in multiset(rows);
    if rows[i].id == rows[j].id {
      OccursTwice(rows, i, j);
      assert false;
    }
  }

  lemma OccursTwice<T>(s: seq<T>, i: nat, j: nat)
    requires i < j < |s| && s[i] == s[j]
    ensures multiset(s)[s[i]] >= 2
  {
    assert s == s[..i] + [s[i]] + s[i+1..j] + [s[j]] + s[j+1..];
  }

  /** A successful booking takes its slot out of the slot listing. */
  lemma BookedSlotLeavesListing(db: Database, caller: UserId, sid: SlotId, notes: Option<string>,
                                failing: set<Stmt>, today: Date)
    requires Book(db, caller, Some(sid), notes, failing).response.Booked?
    ensures forall row :: row in AvailableSlots(Book(db, caller, Some(sid), notes, failing).after, today) ==>
      row.id != sid
  {
  }

  /** A successful booking puts the new appointment, joined with its slot, into the caller's listing. */
  lemma BookedAppointmentListed(db: Database, caller: UserId, sid: SlotId, notes: Option<string>,
                                failing: set<Stmt>)
    requires Book(db, caller, Some(sid), notes, failing).response.Booked?
    ensures var r := Book(db, caller, Some(sid), notes, failing);
      Joined(r.response.id, r.response.row, r.after.slots[sid]) in CallerAppointments(r.after, caller)
  {
    var r := Book(db, caller, Some(sid), notes, failing);
    var row := Joined(r.response.id, r.response.row, r.after.slots[sid]);
    // the new id lies below the advanced sequence, so the filter keeps the row
    assert multiset(CallerAppointmentsBelow(r.after, caller, r.after.appointmentSeq))[row] == 1;
  }

  /** A successful cancellation puts the slot back into the listing, unless it lies before today. */
  lemma CancelledSlotListed(db: Database, caller: UserId, id: AppointmentId, failing: set<Stmt>, today: Date)
    requires WellFormed(db)
    requires Cancel(db, caller, id, failing).response == Cancelled
    requires db.appointments[id].slotId in db.slots
    requires db.slots[db.appointments[id].slotId].date >= today
    ensures var sid := db.appointments[id].slotId;
      SlotRow(sid, db.slots[sid].(isAvailable := true)) in AvailableSlots(Cancel(db, caller, id, failing).after, today)
  {
  }
}
