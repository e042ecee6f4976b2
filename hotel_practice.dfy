/**
  Hotel management, as in lld/python/practice/hotel-management-system.py.

  Rooms move AVAILABLE -> BOOKED -> OCCUPIED -> AVAILABLE; reservations start
  CONFIRMED and may be CANCELLED. The system keeps guests, rooms and reservations
  in dictionaries keyed by id. A reservation holds its room by reference, so the
  room it books, checks in or frees is the room the system knows.
  Locks, the singleton and printing are not modelled; the payment strategy's answer
  is an input; reservation ids (random in the source) are inputs; dates are day
  numbers and prices whole currency units.
*/
module HotelPractice {
  import opened Common

  datatype RoomType = Single | Double | Deluxe | Suite

  datatype RoomStatus = Available | Booked | Occupied

  datatype ReservationStatus = Confirmed | Cancelled

  /** The `ValueError`s of the source, told apart by their messages. */
  datatype HotelError =
    | RoomNotAvailable          // "Room is not available for booking."
    | RoomNotBooked             // "Room is not booked."
    | RoomNotOccupied           // "Room is not occupied."
    | ReservationNotConfirmed   // "Reservation is not confirmed."
    | InvalidReservation        // "Invalid reservation or reservation not confirmed."
    | PaymentFailed             // "Payment failed."

  datatype Guest = Guest(id: string, name: string, email: string, phoneNumber: string)

  // ---------------------------------------------------------------- room transitions

  /** `Room.book` on a room with status `s`: the new status and whether it raised. */
  function BookRoomStatus(s: RoomStatus): (RoomStatus, Outcome<HotelError>)
  {
    if s == Available then (Booked, Pass) else (s, Fail(RoomNotAvailable))
  }

  /** `Room.check_in`. */
  function CheckInRoomStatus(s: RoomStatus): (RoomStatus, Outcome<HotelError>)
  {
    if s == Booked then (Occupied, Pass) else (s, Fail(RoomNotBooked))
  }

  /** `Room.check_out`. */
  function CheckOutRoomStatus(s: RoomStatus): (RoomStatus, Outcome<HotelError>)
  {
    if s == Occupied then (Available, Pass) else (s, Fail(RoomNotOccupied))
  }

  /** Each room transition succeeds exactly from its own starting status, and a
      failed one changes nothing; booking, checking in and checking out bring an
      available room back to available, and no other order of the three does. */
  lemma RoomLifecycle(s: RoomStatus)
    ensures BookRoomStatus(s).1.Pass? <==> s == Available
    ensures CheckInRoomStatus(s).1.Pass? <==> s == Booked
    ensures CheckOutRoomStatus(s).1.Pass? <==> s == Occupied
    ensures BookRoomStatus(s).1.Fail? ==> BookRoomStatus(s).0 == s
    ensures CheckInRoomStatus(s).1.Fail? ==> CheckInRoomStatus(s).0 == s
    ensures CheckOutRoomStatus(s).1.Fail? ==> CheckOutRoomStatus(s).0 == s
    ensures s == Available ==>
      CheckOutRoomStatus(CheckInRoomStatus(BookRoomStatus(s).0).0) == (Available, Pass)
    ensures CheckInRoomStatus(BookRoomStatus(s).0).1.Pass? <==> s != Occupied
  {
  }

  // ---------------------------------------------------------------- cancelling a reservation

  /** `Reservation.cancel` on a reservation with status `rs` whose room has status
      `ro`: the new reservation status, the new room status and whether it raised.
      The reservation is marked cancelled before the room is checked out, so when
      the check-out raises the reservation stays cancelled. */
  function CancelState(rs: ReservationStatus, ro: RoomStatus): (ReservationStatus, RoomStatus, Outcome<HotelError>)
  {
    if rs != Confirmed then (rs, ro, Fail(ReservationNotConfirmed))
    else
      var r := CheckOutRoomStatus(ro);
      (Cancelled, r.0, r.1)
  }

  /** Cancelling succeeds exactly for a confirmed reservation whose guest has checked
      in, and then frees the room. A confirmed reservation always ends cancelled,
      even when the cancellation raises. */
  lemma CancelSpec(rs: ReservationStatus, ro: RoomStatus)
    ensures CancelState(rs, ro).2.Pass? <==> rs == Confirmed && ro == Occupied
    ensures CancelState(rs, ro).2.Pass? ==> CancelState(rs, ro).1 == Available
    ensures rs == Confirmed ==> CancelState(rs, ro).0 == Cancelled
    ensures CancelState(rs, ro).2.Fail? ==> CancelState(rs, ro).1 == ro
    ensures rs != Confirmed ==> CancelState(rs, ro) == (rs, ro, Fail(ReservationNotConfirmed))
  {
  }

  /** Cancelling a reservation before check-in raises, and leaves the reservation
      cancelled while its room stays booked. From there the room cannot be booked
      again, and the reservation can neither be cancelled again nor, since checking
      in and out demand a confirmed reservation, be used to free the room. */
  lemma CancelBeforeCheckIn()
    ensures CancelState(Confirmed, Booked) == (Cancelled, Booked, Fail(RoomNotOccupied))
    ensures BookRoomStatus(Booked).1.Fail?
    ensures CancelState(Cancelled, Booked).2.Fail?
  {
  }

  // ---------------------------------------------------------------- objects

  class Room {
    const id: string
    const roomType: RoomType
    const price: int
    var status: RoomStatus

    /** A new room is available. */
    constructor (id: string, roomType: RoomType, price: int)
      ensures this.id == id && this.roomType == roomType && this.price == price
      ensures status == Available
    {
      this.id := id;
      this.roomType := roomType;
      this.price := price;
      status := Available;
    }

    method Book() returns (outcome: Outcome<HotelError>)
      modifies this`status
      ensures (status, outcome) == BookRoomStatus(old(status))
    {
      if status == Available {
        status := Booked;
        return Pass;
      }
      return Fail(RoomNotAvailable);
    }

    method CheckIn() returns (outcome: Outcome<HotelError>)
      modifies this`status
      ensures (status, outcome) == CheckInRoomStatus(old(status))
    {
      if status == Booked {
        status := Occupied;
        return Pass;
      }
      return Fail(RoomNotBooked);
    }

    method CheckOut() returns (outcome: Outcome<HotelError>)
      modifies this`status
      ensures (status, outcome) == CheckOutRoomStatus(old(status))
    {
      if status == Occupied {
        status := Available;
        return Pass;
      }
      return Fail(RoomNotOccupied);
    }
  }

  class Reservation {
    const id: string
    const guest: Guest
    const room: Room
    const checkInDate: int
    const checkOutDate: int
    var status: ReservationStatus

    /** A new reservation is confirmed. */
    constructor (id: string, guest: Guest, room: Room, checkInDate: int, checkOutDate: int)
      ensures this.id == id && this.guest == guest && this.room == room
      ensures this.checkInDate == checkInDate && this.checkOutDate == checkOutDate
      ensures status == Confirmed
    {
      this.id := id;
      this.guest := guest;
      this.room := room;
      this.checkInDate := checkInDate;
      this.checkOutDate := checkOutDate;
      status := Confirmed;
    }

    /** `cancel`: see `CancelState`. */
    method Cancel() returns (outcome: Outcome<HotelError>)
      modifies this`status, room`status
      ensures (status, room.status, outcome) == CancelState(old(status), old(room.status))
    {
      if status == Confirmed {
        status := Cancelled;
        outcome := room.CheckOut();
      } else {
        outcome := Fail(ReservationNotConfirmed);
      }
    }
  }

  /** The hotel: guests, rooms and reservations by id. */
  class HotelSystem {
    var guests: map<string, Guest>
    var rooms: map<string, Room>
    var reservations: map<string, Reservation>

    /** Every reservation is filed under its own id. */
    ghost predicate Valid()
      reads this
    {
      forall k :: k in reservations ==> reservations[k].id == k
    }

    /** The first construction of the singleton: nothing is known yet. */
    constructor ()
      ensures Valid() && guests == map[] && rooms == map[] && reservations == map[]
    {
      guests := map[];
      rooms := map[];
      reservations := map[];
    }

    /** `add_guest` files the guest under its id, replacing any guest with that id;
        `get_guest` then finds it. */
    method AddGuest(guest: Guest)
      modifies this`guests
      ensures guests == old(guests)[guest.id := guest]
    {
      guests := guests[guest.id := guest];
    }

    /** `get_guest`: the guest filed under the id, or None. */
    method GetGuest(guestId: string) returns (r: Option<Guest>)
      ensures r.Some? <==> guestId in guests
      ensures r.Some? ==> r.value == guests[guestId]
    {
      if guestId in guests {
        return Some(guests[guestId]);
      }
      return None;
    }

    /** `add_room` files the room under its id, replacing any room with that id. */
    method AddRoom(room: Room)
      modifies this`rooms
      ensures rooms == old(rooms)[room.id := room]
    {
      rooms := rooms[room.id := room];
    }

    /** `get_room`: the room filed under the id, or None. */
    method GetRoom(roomId: string) returns (r: Option<Room>)
      ensures r.Some? <==> roomId in rooms
      ensures r.Some? ==> r.value == rooms[roomId]
    {
      if roomId in rooms {
        return Some(rooms[roomId]);
      }
      return None;
    }

    /** `book_room`: an available room is booked and a new confirmed reservation for
        it is filed under `reservationId`; any other room gives None and nothing
        changes. */
    method BookRoom(guest: Guest, room: Room, checkInDate: int, checkOutDate: int, reservationId: string)
      returns (r: Option<Reservation>)
      requires Valid()
      modifies this`reservations, room`status
      ensures Valid()
      ensures r.None? <==> old(room.status) != Available
      ensures r.None? ==> reservations == old(reservations) && room.status == old(room.status)
      ensures r.Some? ==>
        fresh(r.value) && r.value.id == reservationId && r.value.room == room
        && r.value.guest == guest && r.value.status == Confirmed
        && room.status == Booked && reservations == old(reservations)[reservationId := r.value]
    {
      if room.status == Available {
        var booked := room.Book();
        var reservation := new Reservation(reservationId, guest, room, checkInDate, checkOutDate);
        reservations := reservations[reservationId := reservation];
        return Some(reservation);
      }
      return None;
    }

    /** `cancel_reservation`: an unknown id is ignored; a known reservation is
        cancelled as `CancelState` says and removed, unless the cancellation raised,
        in which case it stays filed. */
    method CancelReservation(reservationId: string) returns (outcome: Outcome<HotelError>)
      requires Valid()
      modifies this`reservations
      modifies if reservationId in reservations then {reservations[reservationId]} else {}
      modifies if reservationId in reservations then {reservations[reservationId].room} else {}
      ensures Valid()
      ensures reservationId !in old(reservations) ==> outcome == Pass && reservations == old(reservations)
      ensures reservationId in old(reservations) ==>
        var r := old(reservations)[reservationId];
        (r.status, r.room.status, outcome) == CancelState(old(r.status), old(r.room.status))
        && reservations == if outcome.Pass? then old(reservations) - {reservationId} else old(reservations)
      ensures reservationId in old(reservations) && outcome.Pass? ==>
        forall k :: k in reservations ==> reservations[k].id != reservationId
    {
      if reservationId !in reservations {
        return Pass;
      }
      var reservation := reservations[reservationId];
      outcome := reservation.Cancel();
      if outcome.Pass? {
        reservations := reservations - {reservationId};
      }
    }

    /** `check_in`: a filed, confirmed reservation checks its room in (which raises
        unless the room is booked); anything else raises. */
    method CheckIn(reservationId: string) returns (outcome: Outcome<HotelError>)
      modifies if reservationId in reservations then {reservations[reservationId].room} else {}
      ensures reservationId !in reservations || reservations[reservationId].status != Confirmed ==>
        outcome == Fail(InvalidReservation)
      ensures reservationId in reservations && reservations[reservationId].status == Confirmed ==>
        var room := reservations[reservationId].room;
        (room.status, outcome) == CheckInRoomStatus(old(room.status))
    {
      if reservationId in reservations && reservations[reservationId].status == Confirmed {
        outcome := reservations[reservationId].room.CheckIn();
      } else {
        outcome := Fail(InvalidReservation);
      }
    }

    /** `check_out`: for a filed, confirmed reservation the payment is taken; when it
        goes through the room is checked out (which raises unless it is occupied) and
        the reservation is removed, otherwise "Payment failed" is raised. Anything
        else raises. */
    method CheckOut(reservationId: string, paid: bool) returns (outcome: Outcome<HotelError>)
      requires Valid()
      modifies this`reservations
      modifies if reservationId in reservations then {reservations[reservationId].room} else {}
      ensures Valid()
      ensures reservationId !in old(reservations) || old(reservations)[reservationId].status != Confirmed ==>
        outcome == Fail(InvalidReservation) && reservations == old(reservations)
      ensures reservationId in old(reservations) && old(reservations)[reservationId].status == Confirmed && !paid ==>
        outcome == Fail(PaymentFailed) && reservations == old(reservations)
      ensures reservationId in old(reservations) && old(reservations)[reservationId].status == Confirmed && paid ==>
        var room := old(reservations)[reservationId].room;
        (room.status, outcome) == CheckOutRoomStatus(old(room.status))
        && reservations == if outcome.Pass? then old(reservations) - {reservationId} else old(reservations)
      ensures outcome.Pass? ==> forall k :: k in reservations ==> reservations[k].id != reservationId
    {
      if reservationId in reservations && reservations[reservationId].status == Confirmed {
        var room := reservations[reservationId].room;
        if paid {
          outcome := room.CheckOut();
          if outcome.Pass? {
            reservations := reservations - {reservationId};
          }
        } else {
          outcome := Fail(PaymentFailed);
        }
      } else {
        outcome := Fail(InvalidReservation);
      }
    }
  }

  /** The demo's setup: two guests and two available rooms, no reservations. */
  method DemoHotel() returns (hotel: HotelSystem, guest: Guest, room: Room)
    ensures fresh(hotel) && fresh(room) && hotel.Valid() && hotel.reservations == map[]
    ensures room.status == Available && room.id in hotel.rooms && guest.id in hotel.guests
  {
    hotel := new HotelSystem();
    guest := Guest("G001", "John Doe", "john@example.com", "1234567890");
    var guest2 := Guest("G002", "Jane Smith", "jane@example.com", "9876543210");
    hotel.AddGuest(guest);
    hotel.AddGuest(guest2);
    room := new Room("R001", Single, 100);
    var room2 := new Room("R002", Double, 200);
    hotel.AddRoom(room);
    hotel.AddRoom(room2);
  }

  /** The demo run: a guest books an available room for three days, checks in, pays
      and checks out, and the later cancellation finds no reservation. Every step
      succeeds, and the room ends available with nothing on file. */
  method Demo(reservationId: string) returns (steps: seq<Outcome<HotelError>>, finalStatus: RoomStatus, filed: nat)
    ensures steps == [Pass, Pass, Pass] && finalStatus == Available && filed == 0
  {
    var hotel, guest1, room1 := DemoHotel();
    var reservation := hotel.BookRoom(guest1, room1, 0, 3, reservationId);
    assert hotel.reservations == map[reservationId := reservation.value];
    var checkedIn := hotel.CheckIn(reservationId);
    assert checkedIn == Pass && room1.status == Occupied;
    var checkedOut := hotel.CheckOut(reservationId, true);
    assert checkedOut == Pass && room1.status == Available && hotel.reservations == map[];
    var cancelled := hotel.CancelReservation(reservationId);
    steps := [checkedIn, checkedOut, cancelled];
    finalStatus := room1.status;
    filed := |hotel.reservations|;
  }
}
