/**
 * The request handlers of appointment-system/backend/server.js that write to
 * the store, run statement by statement against a Store object. BEGIN keeps
 * a snapshot of both tables; a failing statement restores it (ROLLBACK).
 * Each handler is proved to do what the matching function of Transactions
 * says, and to keep the store Consistent.
 */
module Server {
  import opened Schema
  import opened Transactions

  class Store {
    var slots: map<SlotId, Slot>
    var appointments: map<AppointmentId, Appointment>
    var slotSeq: nat
    var appointmentSeq: nat

    function Snapshot(): (db: Database)
      reads this
    {
      Database(slots, appointments, slotSeq, appointmentSeq)
    }

    ghost predicate Valid()
      reads this
    {
      Consistent(Snapshot())
    }

    constructor ()
      ensures Valid() && Snapshot() == Empty
    {
      slots, appointments := map[], map[];
      slotSeq, appointmentSeq := 1, 1;
    }

    /** POST /api/appointments */
    method PostAppointment(caller: UserId, slotId: Option<SlotId>, notes: Option<string>, failing: set<Stmt>)
      returns (response: BookResponse)
      requires Valid()
      modifies this
      ensures Valid()
      ensures Step(response, Snapshot()) == Book(old(Snapshot()), caller, slotId, notes, failing)
    {
      ghost var before := Snapshot();
      BookPreservesConsistent(before, caller, slotId, notes, failing);
      ghost var expected := Book(before, caller, slotId, notes, failing);
      if Begin in failing {
        assert expected == Step(BookFailed, before);
        return BookFailed;
      }
      var savedSlots, savedAppointments := slots, appointments;
      if Select in failing {
        assert expected == Step(BookFailed, before);
        return BookFailed;
      }
      // SELECT * FROM Slots WHERE Id = $1 AND IsAvailable = true
      if !Bookable(slots, slotId) {
        assert expected == Step(SlotNoLongerAvailable, before);
        return SlotNoLongerAvailable;
      }
      var sid := slotId.value;
      if Insert in failing {
        assert expected == Step(BookFailed, before);
        return BookFailed;
      }
      // INSERT INTO Appointments ... RETURNING *: the id is drawn before the row is checked
      var id := appointmentSeq;
      appointmentSeq := appointmentSeq + 1;
      var row := Appointment(caller, sid, notes);
      if InsertConstraint in failing {
        slots, appointments := savedSlots, savedAppointments;
        assert expected == Step(BookFailed, before.(appointmentSeq := id + 1));
        return BookFailed;
      }
      appointments := appointments[id := row];
      if Update in failing {
        slots, appointments := savedSlots, savedAppointments;
        assert expected == Step(BookFailed, before.(appointmentSeq := id + 1));
        return BookFailed;
      }
      // UPDATE Slots SET IsAvailable = false WHERE Id = $1
      slots := SetAvailability(slots, sid, false);
      if Commit in failing {
        slots, appointments := savedSlots, savedAppointments;
        assert expected == Step(BookFailed, before.(appointmentSeq := id + 1));
        return BookFailed;
      }
      response := Booked(id, row);
      assert expected == Step(response, Snapshot());
    }

    /** DELETE /api/appointments/:id */
    method DeleteAppointment(caller: UserId, id: AppointmentId, failing: set<Stmt>)
      returns (response: CancelResponse)
      requires Valid()
      modifies this
      ensures Valid()
      ensures Step(response, Snapshot()) == Cancel(old(Snapshot()), caller, id, failing)
    {
      ghost var before := Snapshot();
      CancelPreservesConsistent(before, caller, id, failing);
      ghost var expected := Cancel(before, caller, id, failing);
      if Begin in failing {
        assert expected == Step(CancelFailed, before);
        return CancelFailed;
      }
      var savedSlots, savedAppointments := slots, appointments;
      if Select in failing {
        assert expected == Step(CancelFailed, before);
        return CancelFailed;
      }
      // SELECT SlotId FROM Appointments WHERE Id = $1 AND UserId = $2
      if !Owns(Snapshot(), caller, id) {
        assert expected == Step(AppointmentNotFound, before);
        return AppointmentNotFound;
      }
      var sid := appointments[id].slotId;
      if Delete in failing {
        assert expected == Step(CancelFailed, before);
        return CancelFailed;
      }
      // DELETE FROM Appointments WHERE Id = $1
      appointments := appointments - {id};
      if Update in failing {
        slots, appointments := savedSlots, savedAppointments;
        assert expected == Step(CancelFailed, before);
        return CancelFailed;
      }
      // UPDATE Slots SET IsAvailable = true WHERE Id = $1 (no row matches a missing slot)
      slots := SetAvailability(slots, sid, true);
      if Commit in failing {
        slots, appointments := savedSlots, savedAppointments;
        assert expected == Step(CancelFailed, before);
        return CancelFailed;
      }
      response := Cancelled;
      assert expected == Step(response, Snapshot());
    }

    /** POST /api/slots */
    method PostSlot(date: Option<Date>, startTime: Option<Time>, endTime: Option<Time>, failing: set<Stmt>)
      returns (response: CreateSlotResponse)
      requires Valid()
      modifies this
      ensures Valid()
      ensures Step(response, Snapshot()) == CreateSlot(old(Snapshot()), date, startTime, endTime, failing)
    {
      ghost var before := Snapshot();
      ghost var expected := CreateSlot(before, date, startTime, endTime, failing);
      if date.None? || startTime.None? || endTime.None? {
        response := MissingRequiredFields;
      } else if Insert in failing {
        response := CreateSlotFailed;
      } else {
        // INSERT INTO Slots (Date, StartTime, EndTime, IsAvailable) VALUES ($1, $2, $3, true);
        // no transaction: a rejected row is simply not stored, but its id is used up
        var id := slotSeq;
        slotSeq := slotSeq + 1;
        if InsertConstraint in failing {
          response := CreateSlotFailed;
        } else {
          var row := Slot(date.value, startTime.value, endTime.value, true);
          slots := slots[id := row];
          response := SlotCreated(id, row);
        }
      }
      assert expected == Step(response, Snapshot());
      CreateSlotPreservesConsistent(before, date, startTime, endTime, failing);
    }
  }
}
