/**
  Movie ticket booking, as in lld/python/practice/movie-ticket-booking-system.py.

  Seats move AVAILABLE -> RESERVED -> BOOKED and back to AVAILABLE on release;
  bookings move PENDING -> CONFIRMED or CANCELLED. A show keeps its seats in a
  dictionary keyed by seat id, in insertion order; seats are shared objects, so a
  booking that books or releases its seats changes what the show reports.
  Locks, users, movies, theaters and timestamps are not modelled; the payment
  processor's answer is an input; prices are whole currency units.
*/
module MoviePractice {
  import opened Common

  datatype SeatStatus = Available | Reserved | Booked

  datatype BookingStatus = Pending | Confirmed | Cancelled

  datatype SeatType = Normal | Premium

  /** The exceptions of the booking flow; the two `ValueError`s are told apart. */
  datatype BookingError =
    | SeatNotAvailableError
    | InvalidBookingStateError
    | SeatNotFound        // ValueError raised by reserve_seats
    | InvalidBookingId    // ValueError raised by confirm_booking
    | PaymentError        // whatever the payment processor raises

  /** What the payment processor does with a charge: approve, decline, or raise. */
  datatype PaymentReply = Approved | Declined | Raises

  // ---------------------------------------------------------------- seats

  /** `Seat.reserve` on a seat with status `s`: the new status and whether it raised. */
  function ReserveSeat(s: SeatStatus): (SeatStatus, Outcome<BookingError>)
  {
    if s != Available then (s, Fail(SeatNotAvailableError)) else (Reserved, Pass)
  }

  /** `Seat.confirm` on a seat with status `s`. */
  function ConfirmSeat(s: SeatStatus): (SeatStatus, Outcome<BookingError>)
  {
    if s != Reserved then (s, Fail(InvalidBookingStateError)) else (Booked, Pass)
  }

  /** A seat is booked only by reserving it and then confirming it; a failed step
      changes nothing; release makes any seat available again. */
  lemma SeatLifecycle(s: SeatStatus)
    ensures ReserveSeat(s).1.Pass? <==> s == Available
    ensures ConfirmSeat(s).1.Pass? <==> s == Reserved
    ensures ReserveSeat(s).1.Fail? ==> ReserveSeat(s).0 == s
    ensures ConfirmSeat(s).1.Fail? ==> ConfirmSeat(s).0 == s
    ensures ReserveSeat(s).1.Pass? ==> ConfirmSeat(ReserveSeat(s).0) == (Booked, Pass)
    ensures ReserveSeat(ConfirmSeat(s).0).1.Fail? <==> s != Available
  {
  }

  // ---------------------------------------------------------------- reserving seats of a show

  /** `Show.reserve_seats` on the seat statuses of a show, keyed by seat id: the ids
      are reserved in order until one is unknown or not available. Seats reserved
      before the failure stay reserved. */
  function ReserveAll(st: map<string, SeatStatus>, ids: seq<string>): (map<string, SeatStatus>, Outcome<BookingError>)
  {
    if ids == [] then (st, Pass)
    else if ids[0] !in st then (st, Fail(SeatNotFound))
    else if st[ids[0]] != Available then (st, Fail(SeatNotAvailableError))
    else ReserveAll(st[ids[0] := Reserved], ids[1..])
  }

  /** Reserving touches only the named seats, each of them going from available to
      reserved; no seat appears or disappears. */
  lemma {:induction false} ReserveAllChanges(st: map<string, SeatStatus>, ids: seq<string>)
    ensures ReserveAll(st, ids).0.Keys == st.Keys
    ensures forall k :: k in st ==>
      (ReserveAll(st, ids).0[k] == st[k]
       || (st[k] == Available && ReserveAll(st, ids).0[k] == Reserved && k in ids))
  {
    if ids != [] && ids[0] in st && st[ids[0]] == Available {
      ReserveAllChanges(st[ids[0] := Reserved], ids[1..]);
    }
  }

  /** The call succeeds exactly when the ids are distinct, known and available; it
      then reserves exactly those seats. */
  lemma {:induction false} ReserveAllSucceeds(st: map<string, SeatStatus>, ids: seq<string>)
    ensures ReserveAll(st, ids).1.Pass? <==>
      Distinct(ids) && forall i :: 0 <= i < |ids| ==> ids[i] in st && st[ids[i]] == Available
    ensures ReserveAll(st, ids).1.Pass? ==>
      forall k :: k in st ==>
        k in ReserveAll(st, ids).0 && ReserveAll(st, ids).0[k] == if k in ids then Reserved else st[k]
  {
    ReserveAllChanges(st, ids);
    if ids != [] && ids[0] in st && st[ids[0]] == Available {
      var st' := st[ids[0] := Reserved];
      ReserveAllSucceeds(st', ids[1..]);
      ReserveAllChanges(st', ids[1..]);
      if ReserveAll(st, ids).1.Pass? {
        forall i | 0 < i < |ids|
          ensures ids[i] != ids[0]
        {
          assert ids[1..][i - 1] == ids[i];
        }
        forall i | 0 <= i < |ids|
          ensures ids[i] in st && st[ids[i]] == Available
        {
          if i > 0 {
            assert ids[1..][i - 1] == ids[i];
          }
        }
        forall i, j | 0 <= i < j < |ids|
          ensures ids[i] != ids[j]
        {
          if i > 0 {
            assert ids[1..][i - 1] == ids[i] && ids[1..][j - 1] == ids[j];
          }
        }
      }
      if Distinct(ids) && forall i :: 0 <= i < |ids| ==> ids[i] in st && st[ids[i]] == Available {
        forall i | 0 <= i < |ids| - 1
          ensures ids[1..][i] in st' && st'[ids[1..][i]] == Available
        {
          assert ids[1..][i] == ids[i + 1];
        }
        assert Distinct(ids[1..]) by {
          forall i, j | 0 <= i < j < |ids| - 1
            ensures ids[1..][i] != ids[1..][j]
          {
            assert ids[1..][i] == ids[i + 1] && ids[1..][j] == ids[j + 1];
          }
        }
      }
    } else if ids != [] {
      assert !(ids[0] in st && st[ids[0]] == Available);
    }
  }

  /** No rollback: when the ids before position j reserve cleanly and the j-th one
      cannot be reserved, the call fails and leaves the first j seats reserved. */
  lemma {:induction false} ReserveAllStopsAt(st: map<string, SeatStatus>, ids: seq<string>, j: nat)
    requires j < |ids| && ReserveAll(st, ids[..j]).1.Pass?
    requires var mid := ReserveAll(st, ids[..j]).0; ids[j] !in mid || mid[ids[j]] != Available
    ensures ReserveAll(st, ids).1.Fail?
    ensures ReserveAll(st, ids).0 == ReserveAll(st, ids[..j]).0
    ensures forall i :: 0 <= i < j ==>
      ids[i] in ReserveAll(st, ids).0 && ReserveAll(st, ids).0[ids[i]] == Reserved
  {
    ReserveAllSucceeds(st, ids[..j]);
    ReserveAllChanges(st, ids[..j]);
    assert forall i :: 0 <= i < j ==> ids[..j][i] == ids[i];
    if j > 0 {
      assert ids[..j][1..] == ids[1..][..j - 1];
      ReserveAllStopsAt(st[ids[0] := Reserved], ids[1..], j - 1);
    }
  }

  /** The ids, in order, whose seats are available. */
  function AvailableIds(order: seq<string>, st: map<string, SeatStatus>): (r: seq<string>)
  {
    if order == [] then []
    else
      var head := if order[0] in st && st[order[0]] == Available then [order[0]] else [];
      head + AvailableIds(order[1..], st)
  }

  /** `get_available_seats` lists exactly the available seats, once each, in the
      show's order. */
  lemma {:induction false} AvailableIdsSpec(order: seq<string>, st: map<string, SeatStatus>)
    requires Distinct(order)
    ensures forall k :: k in AvailableIds(order, st) <==> k in order && k in st && st[k] == Available
    ensures Distinct(AvailableIds(order, st))
    ensures |AvailableIds(order, st)| <= |order|
  {
    if order != [] {
      assert Distinct(order[1..]) by {
        forall i, j | 0 <= i < j < |order| - 1
          ensures order[1..][i] != order[1..][j]
        {
          assert order[1..][i] == order[i + 1] && order[1..][j] == order[j + 1];
        }
      }
      AvailableIdsSpec(order[1..], st);
      assert order[0] !in order[1..] by {
        forall i | 0 <= i < |order| - 1
          ensures order[1..][i] != order[0]
        {
          assert order[1..][i] == order[i + 1];
        }
      }
      assert forall k :: k in order <==> k == order[0] || k in order[1..];
    }
  }

  // ---------------------------------------------------------------- bookings

  /** `Booking.confirm` on the statuses of its seats, in order: every seat is
      confirmed in turn, and the booking becomes CONFIRMED only when all were. */
  function ConfirmAll(seats: seq<SeatStatus>): (seq<SeatStatus>, Outcome<BookingError>)
  {
    if seats == [] then (seats, Pass)
    else if seats[0] != Reserved then (seats, Fail(InvalidBookingStateError))
    else
      var rest := ConfirmAll(seats[1..]);
      ([Booked] + rest.0, rest.1)
  }

  predicate AllAre(seats: seq<SeatStatus>, s: SeatStatus)
  {
    forall i :: 0 <= i < |seats| ==> seats[i] == s
  }

  /** Every seat up to and including position i is reserved. */
  predicate ReservedThrough(seats: seq<SeatStatus>, i: nat)
  {
    forall k :: 0 <= k <= i && k < |seats| ==> seats[k] == Reserved
  }

  /** Confirming succeeds exactly when every seat is reserved, and then books all of
      them. */
  lemma {:induction false} ConfirmAllSucceeds(seats: seq<SeatStatus>)
    ensures |ConfirmAll(seats).0| == |seats|
    ensures ConfirmAll(seats).1.Pass? <==> AllAre(seats, Reserved)
    ensures ConfirmAll(seats).1.Pass? ==> AllAre(ConfirmAll(seats).0, Booked)
  {
    if seats != [] && seats[0] == Reserved {
      var rest := seats[1..];
      ConfirmAllSucceeds(rest);
      assert forall k :: 0 < k < |seats| ==> seats[k] == rest[k - 1];
      assert forall k :: 0 < k < |seats| ==> ConfirmAll(seats).0[k] == ConfirmAll(rest).0[k - 1];
    }
  }

  /** Confirming books each seat up to the first one that is not reserved, and leaves
      that one and every later seat as it was: there is no rollback. */
  lemma {:induction false} ConfirmAllAt(seats: seq<SeatStatus>, i: nat)
    requires i < |seats|
    ensures |ConfirmAll(seats).0| == |seats|
    ensures ConfirmAll(seats).0[i] == if ReservedThrough(seats, i) then Booked else seats[i]
  {
    ConfirmAllSucceeds(seats);
    if seats[0] == Reserved && i > 0 {
      var rest := seats[1..];
      ConfirmAllAt(rest, i - 1);
      assert ConfirmAll(seats).0[i] == ConfirmAll(rest).0[i - 1];
      assert forall k :: 0 < k < |seats| ==> seats[k] == rest[k - 1];
      if ReservedThrough(rest, i - 1) {
        forall k | 0 < k <= i
          ensures seats[k] == Reserved
        {
          assert rest[k - 1] == Reserved;
        }
      }
    }
  }

  /** A booking's status and its seats' statuses, as `confirm` and `cancel` see them. */
  datatype BookingState = BookingState(status: BookingStatus, seats: seq<SeatStatus>)

  /** `Booking.confirm`: only a pending booking may be confirmed. */
  function ConfirmBookingState(b: BookingState): (BookingState, Outcome<BookingError>)
  {
    if b.status != Pending then (b, Fail(InvalidBookingStateError))
    else
      var r := ConfirmAll(b.seats);
      (BookingState(if r.1.Pass? then Confirmed else Pending, r.0), r.1)
  }

  function AllAvailable(n: nat): (r: seq<SeatStatus>)
    ensures |r| == n && AllAre(r, Available)
  {
    if n == 0 then [] else AllAvailable(n - 1) + [Available]
  }

  /** `Booking.cancel`: nothing happens to a cancelled booking; otherwise it is
      cancelled and every seat is released. */
  function CancelBookingState(b: BookingState): BookingState
  {
    if b.status == Cancelled then b else BookingState(Cancelled, AllAvailable(|b.seats|))
  }

  /** Confirming a pending booking whose seats are all reserved books them all; a
      booking that is not pending is refused unchanged; cancelling is idempotent and
      leaves a cancelled booking whose seats, unless it was cancelled before, are all
      available. */
  lemma BookingLifecycle(b: BookingState)
    ensures ConfirmBookingState(b).1.Pass? <==> b.status == Pending && AllAre(b.seats, Reserved)
    ensures ConfirmBookingState(b).1.Pass? ==>
      ConfirmBookingState(b).0.status == Confirmed && AllAre(ConfirmBookingState(b).0.seats, Booked)
    ensures ConfirmBookingState(b).1.Fail? ==> ConfirmBookingState(b).0.status == b.status
    ensures CancelBookingState(CancelBookingState(b)) == CancelBookingState(b)
    ensures CancelBookingState(b).status == Cancelled
    ensures b.status != Cancelled ==> AllAre(CancelBookingState(b).seats, Available)
    ensures |CancelBookingState(b).seats| == |b.seats|
  {
    ConfirmAllSucceeds(b.seats);
  }

  // ---------------------------------------------------------------- ids and the seat factory

  /** The id of the n-th booking: "BKG-" and n in six zero-padded digits. */
  function BookingId(n: nat): string
  {
    "BKG-" + ZeroPad(NatToString(n), 6)
  }

  /** Different counter values give different booking ids. */
  lemma BookingIdInjective(m: nat, n: nat)
    ensures BookingId(m) == BookingId(n) <==> m == n
  {
    if BookingId(m) == BookingId(n) {
      assert ZeroPad(NatToString(m), 6) == BookingId(m)[4..];
      assert ZeroPad(NatToString(n), 6) == BookingId(n)[4..];
      PaddedNatInjective(m, n, 6);
    }
  }

  /** The id of a seat: "row-number". */
  function SeatId(row: nat, num: nat): string
  {
    NatToString(row) + "-" + NatToString(num)
  }

  /** A digit string has no '-', so the dash splits a seat id back into its parts. */
  lemma SeatIdInjective(r1: nat, n1: nat, r2: nat, n2: nat)
    ensures SeatId(r1, n1) == SeatId(r2, n2) <==> r1 == r2 && n1 == n2
  {
    if SeatId(r1, n1) == SeatId(r2, n2) {
      var a, b := NatToString(r1), NatToString(r2);
      var id := SeatId(r1, n1);
      assert id[|a|] == '-' && SeatId(r2, n2)[|b|] == '-';
      assert |a| == |b|;
      assert a == id[..|a|] == b;
      assert NatToString(n1) == id[|a| + 1..] == NatToString(n2);
      NatToStringRoundTrip(r1);
      NatToStringRoundTrip(r2);
      NatToStringRoundTrip(n1);
      NatToStringRoundTrip(n2);
    }
  }

  /** What the factory decides for a seat: its id, row, type and price. */
  datatype SeatSpec = SeatSpec(id: string, row: nat, seatType: SeatType, price: int)

  /** Rows 1 and 2 are premium seats at 200, the others normal seats at 150. */
  function SeatFor(row: nat, num: nat): SeatSpec
  {
    var t := if row <= 2 then Premium else Normal;
    SeatSpec(SeatId(row, num), row, t, if t == Premium then 200 else 150)
  }

  /** Seats 1..num of a row, in order. */
  function RowSeats(row: nat, num: nat): seq<SeatSpec>
  {
    if num == 0 then [] else RowSeats(row, num - 1) + [SeatFor(row, num)]
  }

  /** `SeatFactory.create_seats`: rows 1..rows, each with seats 1..perRow. */
  function Layout(rows: nat, perRow: nat): seq<SeatSpec>
  {
    if rows == 0 then [] else Layout(rows - 1, perRow) + RowSeats(rows, perRow)
  }

  lemma {:induction false} RowSeatsSpec(row: nat, num: nat)
    ensures |RowSeats(row, num)| == num
    ensures forall i :: 0 <= i < num ==> RowSeats(row, num)[i] == SeatFor(row, i + 1)
  {
    if num > 0 {
      RowSeatsSpec(row, num - 1);
    }
  }

  lemma {:induction false} LayoutLength(rows: nat, perRow: nat)
    ensures |Layout(rows, perRow)| == rows * perRow
  {
    if rows > 0 {
      LayoutLength(rows - 1, perRow);
      RowSeatsSpec(rows, perRow);
      assert (rows - 1) * perRow + perRow == rows * perRow;
    }
  }

  /** The seats of one row are exactly its numbers 1..num. */
  lemma RowSeatsMember(row: nat, num: nat, s: SeatSpec)
    ensures s in RowSeats(row, num) <==> exists n :: 1 <= n <= num && s == SeatFor(row, n)
  {
    RowSeatsSpec(row, num);
    var seats := RowSeats(row, num);
    if s in seats {
      var i :| 0 <= i < |seats| && seats[i] == s;
      assert s == SeatFor(row, i + 1);
    }
    if n :| 1 <= n <= num && s == SeatFor(row, n) {
      assert seats[n - 1] == s;
    }
  }

  /** The layout has a seat for each row 1..rows and number 1..perRow, and no other. */
  lemma {:induction false} LayoutMember(rows: nat, perRow: nat, s: SeatSpec)
    ensures s in Layout(rows, perRow) <==>
      exists r, n :: 1 <= r <= rows && 1 <= n <= perRow && s == SeatFor(r, n)
  {
    if rows > 0 {
      var before: seq<SeatSpec> := Layout(rows - 1, perRow);
      var row: seq<SeatSpec> := RowSeats(rows, perRow);
      assert Layout(rows, perRow) == before + row;
      LayoutMember(rows - 1, perRow, s);
      RowSeatsMember(rows, perRow, s);
      if s in before {
        var r, n :| 1 <= r <= rows - 1 && 1 <= n <= perRow && s == SeatFor(r, n);
        assert 1 <= r <= rows;
      } else if s in row {
        var n :| 1 <= n <= perRow && s == SeatFor(rows, n);
        assert 1 <= rows <= rows;
      }
      if r, n :| 1 <= r <= rows && 1 <= n <= perRow && s == SeatFor(r, n) {
        if r == rows {
          assert s in row;
        } else {
          assert s in before;
        }
      }
    }
  }

  /** A seat of the first rows - 1 rows never shares its id with a seat of row `rows`. */
  lemma EarlierRowIds(rows: nat, perRow: nat, s: SeatSpec, n: nat)
    requires rows > 0 && s in Layout(rows - 1, perRow)
    ensures s.id != SeatFor(rows, n).id
  {
    LayoutMember(rows - 1, perRow, s);
    var r, m :| 1 <= r <= rows - 1 && 1 <= m <= perRow && s == SeatFor(r, m);
    SeatIdInjective(r, m, rows, n);
  }

  /** No two seats of the layout share an id. */
  lemma {:induction false} LayoutIdsDistinct(rows: nat, perRow: nat)
    ensures forall i, j :: 0 <= i < j < |Layout(rows, perRow)| ==>
      Layout(rows, perRow)[i].id != Layout(rows, perRow)[j].id
  {
    if rows > 0 {
      LayoutIdsDistinct(rows - 1, perRow);
      RowSeatsSpec(rows, perRow);
      var before: seq<SeatSpec> := Layout(rows - 1, perRow);
      var row: seq<SeatSpec> := RowSeats(rows, perRow);
      var all := before + row;
      assert Layout(rows, perRow) == all;
      forall i, j | 0 <= i < j < |all|
        ensures all[i].id != all[j].id
      {
        if j < |before| {
          assert all[i] == before[i] && all[j] == before[j];
        } else {
          var n := j - |before| + 1;
          assert all[j] == SeatFor(rows, n);
          if i >= |before| {
            assert all[i] == SeatFor(rows, i - |before| + 1);
            SeatIdInjective(rows, i - |before| + 1, rows, n);
          } else {
            assert all[i] == before[i];
            EarlierRowIds(rows, perRow, before[i], n);
          }
        }
      }
    }
  }

  /** The demo's booking: seats 1-5 and 1-6 are premium seats at 200 each, and the
      first booking id issued is BKG-000001. */
  lemma DemoIds()
    ensures SeatFor(1, 5) == SeatSpec("1-5", 1, Premium, 200)
    ensures SeatFor(1, 6) == SeatSpec("1-6", 1, Premium, 200)
    ensures BookingId(1) == "BKG-000001"
  {
    assert NatToString(1) == "1";
    assert "0" + "1" == "01" && "0" + "01" == "001" && "0" + "001" == "0001";
    assert "0" + "0001" == "00001" && "0" + "00001" == "000001";
    assert ZeroPad("000001", 6) == "000001";
    assert ZeroPad("00001", 6) == ZeroPad("000001", 6);
    assert ZeroPad("0001", 6) == ZeroPad("00001", 6);
    assert ZeroPad("001", 6) == ZeroPad("0001", 6);
    assert ZeroPad("01", 6) == ZeroPad("001", 6);
    assert ZeroPad("1", 6) == ZeroPad("01", 6);
  }

  // ---------------------------------------------------------------- the objects

  /** The total price of a list of seats, as `sum(seat._price for seat in ...)`. */
  function Total(seats: seq<Seat>): int
  {
    if seats == [] then 0 else seats[0].price + Total(seats[1..])
  }

  /** What the factory decided for a seat. */
  function SpecOf(seat: Seat): SeatSpec
  {
    SeatSpec(seat.id, seat.row, seat.seatType, seat.price)
  }

  /** What the factory decided for each seat of a list. */
  function Specs(seats: seq<Seat>): (r: seq<SeatSpec>)
    ensures |r| == |seats|
  {
    seq(|seats|, i requires 0 <= i < |seats| => SpecOf(seats[i]))
  }

  lemma SpecsConcat(a: seq<Seat>, b: seq<Seat>)
    ensures Specs(a + b) == Specs(a) + Specs(b)
  {
    assert forall i :: 0 <= i < |a + b| ==> Specs(a + b)[i] == (Specs(a) + Specs(b))[i];
  }

  lemma DistinctConcat<T>(a: seq<T>, b: seq<T>)
    requires Distinct(a) && Distinct(b)
    requires forall i, j :: 0 <= i < |a| && 0 <= j < |b| ==> a[i] != b[j]
    ensures Distinct(a + b)
  {
    forall i, j | 0 <= i < j < |a + b|
      ensures (a + b)[i] != (a + b)[j]
    {
      if j < |a| {
        assert (a + b)[i] == a[i] && (a + b)[j] == a[j];
      } else if i >= |a| {
        assert (a + b)[i] == b[i - |a|] && (a + b)[j] == b[j - |a|];
      } else {
        assert (a + b)[i] == a[i] && (a + b)[j] == b[j - |a|];
      }
    }
  }

  class Seat {
    const id: string
    const row: nat
    const seatType: SeatType
    const price: int
    var status: SeatStatus

    /** A new seat is available. */
    constructor (id: string, row: nat, seatType: SeatType, price: int)
      ensures this.id == id && this.row == row && this.seatType == seatType && this.price == price
      ensures status == Available
    {
      this.id := id;
      this.row := row;
      this.seatType := seatType;
      this.price := price;
      status := Available;
    }

    method Reserve() returns (outcome: Outcome<BookingError>)
      modifies this`status
      ensures (status, outcome) == ReserveSeat(old(status))
    {
      if status != Available {
        return Fail(SeatNotAvailableError);
      }
      status := Reserved;
      return Pass;
    }

    method Confirm() returns (outcome: Outcome<BookingError>)
      modifies this`status
      ensures (status, outcome) == ConfirmSeat(old(status))
    {
      if status != Reserved {
        return Fail(InvalidBookingStateError);
      }
      status := Booked;
      return Pass;
    }

    method Release()
      modifies this`status
      ensures status == Available
    {
      status := Available;
    }
  }

  /** The seats of a list added one by one to a dictionary keyed by seat id, whose
      keys are listed in insertion order: a seat with a known id replaces the old
      one and keeps its place. */
  function AddAll(m: map<string, Seat>, order: seq<string>, added: seq<Seat>): (map<string, Seat>, seq<string>)
    decreases |added|
  {
    if added == [] then (m, order)
    else
      var s := added[0];
      AddAll(m[s.id := s], if s.id in m then order else order + [s.id], added[1..])
  }

  /** The dictionary's key list names each key once, and every seat is filed under
      its own id. */
  ghost predicate Indexed(m: map<string, Seat>, order: seq<string>)
  {
    Distinct(order)
    && (forall k :: k in order <==> k in m)
    && (forall k :: k in m ==> m[k].id == k)
  }

  /** Adding seats keeps the dictionary indexed and files every added seat's id. */
  lemma {:induction false} AddAllIndexed(m: map<string, Seat>, order: seq<string>, added: seq<Seat>)
    requires Indexed(m, order)
    decreases |added|
    ensures Indexed(AddAll(m, order, added).0, AddAll(m, order, added).1)
    ensures m.Keys <= AddAll(m, order, added).0.Keys
    ensures forall i :: 0 <= i < |added| ==> added[i].id in AddAll(m, order, added).0
  {
    if added != [] {
      var s := added[0];
      var m', order' := m[s.id := s], if s.id in m then order else order + [s.id];
      assert Indexed(m', order') by {
        if s.id !in m {
          assert s.id !in order;
          forall i, j | 0 <= i < j < |order'|
            ensures order'[i] != order'[j]
          {
            if j == |order| {
              assert order[i] in order;
            }
          }
          assert forall k :: k in order' <==> k in order || k == s.id;
        }
      }
      AddAllIndexed(m', order', added[1..]);
      assert forall i :: 0 < i < |added| ==> added[i] == added[1..][i - 1];
    }
  }

  class Show {
    var seats: map<string, Seat>
    /** The keys of `seats` in the dictionary's insertion order. */
    var order: seq<string>

    ghost predicate Valid()
      reads this
    {
      Indexed(seats, order)
    }

    /** The status of each seat, by id. */
    function Statuses(): (st: map<string, SeatStatus>)
      reads this, seats.Values
      ensures st.Keys == seats.Keys
    {
      map k | k in seats :: seats[k].status
    }

    /** A show without seats. */
    constructor ()
      ensures Valid() && seats == map[] && order == []
    {
      seats := map[];
      order := [];
    }

    method AddSeats(added: seq<Seat>)
      requires Valid()
      modifies this
      ensures Valid()
      ensures (seats, order) == AddAll(old(seats), old(order), added)
    {
      AddAllIndexed(seats, order, added);
      ghost var target := AddAll(seats, order, added);
      for i := 0 to |added|
        invariant AddAll(seats, order, added[i..]) == target
      {
        assert added[i..][1..] == added[i + 1..];
        var s := added[i];
        if s.id !in seats {
          order := order + [s.id];
        }
        seats := seats[s.id := s];
      }
      assert added[|added|..] == [];
    }

    /** `get_available_seats`: the available seats, in the dictionary's order. Each
        seat of the show that is available is listed, once, and nothing else. */
    method GetAvailableSeats() returns (r: seq<Seat>)
      requires Valid()
      ensures forall s :: s in r <==> s in seats.Values && s.status == Available
      ensures Distinct(r)
      ensures var ids := AvailableIds(order, Statuses());
        |r| == |ids| && forall i :: 0 <= i < |r| ==> ids[i] in seats && r[i] == seats[ids[i]]
    {
      var m, st := seats, Statuses();
      var ids := AvailableIds(order, st);
      AvailableIdsSpec(order, st);
      r := seq(|ids|, i requires 0 <= i < |ids| => m[ids[i]]);
      forall s | s in r
        ensures s in seats.Values && s.status == Available
      {
        var i :| 0 <= i < |ids| && r[i] == s;
        assert ids[i] in ids;
      }
      forall s | s in seats.Values && s.status == Available
        ensures s in r
      {
        var k :| k in seats && seats[k] == s;
        assert k in ids;
        var i :| 0 <= i < |ids| && ids[i] == k;
        assert r[i] == s;
      }
      forall i, j | 0 <= i < j < |r|
        ensures r[i] != r[j]
      {
        assert ids[i] in ids && ids[j] in ids;
        assert r[i].id == ids[i] && r[j].id == ids[j];
      }
    }

    /** One step of `reserve_seats`: the seat filed under `id` is reserved. */
    method ReserveOne(id: string) returns (outcome: Outcome<BookingError>)
      requires Valid() && id in seats
      modifies seats[id]
      ensures Statuses() == if old(Statuses())[id] == Available then old(Statuses())[id := Reserved] else old(Statuses())
      ensures outcome == ReserveSeat(old(Statuses())[id]).1
    {
      var seat := seats[id];
      ghost var before := Statuses();
      outcome := seat.Reserve();
      forall k | k in seats && k != id
        ensures seats[k].status == before[k]
      {
        assert seats[k].id != seat.id;
      }
    }

    /** `reserve_seats`: the ids are reserved in order, as `ReserveAll` describes;
        on success the seats are returned in the order of the ids. */
    method ReserveSeats(ids: seq<string>) returns (r: Result<seq<Seat>, BookingError>)
      requires Valid()
      modifies seats.Values
      ensures Statuses() == ReserveAll(old(Statuses()), ids).0
      ensures r.Err? <==> ReserveAll(old(Statuses()), ids).1.Fail?
      ensures r.Err? ==> r.error == ReserveAll(old(Statuses()), ids).1.error
      ensures r.Ok? ==>
        |r.value| == |ids| && forall i :: 0 <= i < |ids| ==> ids[i] in seats && r.value[i] == seats[ids[i]]
      ensures r.Ok? ==> Distinct(r.value)
    {
      ghost var target := ReserveAll(Statuses(), ids);
      var reserved: seq<Seat> := [];
      for i := 0 to |ids|
        invariant ReserveAll(Statuses(), ids[i..]) == target
        invariant |reserved| == i
        invariant forall j :: 0 <= j < i ==> ids[j] in seats && reserved[j] == seats[ids[j]]
      {
        assert ids[i..][1..] == ids[i + 1..];
        var id := ids[i];
        if id !in seats {
          return Err(SeatNotFound);
        }
        var outcome := ReserveOne(id);
        if outcome.Fail? {
          return Err(outcome.error);
        }
        reserved := reserved + [seats[id]];
      }
      assert ids[|ids|..] == [];
      ReserveAllSucceeds(old(Statuses()), ids);
      forall i, j | 0 <= i < j < |ids|
        ensures reserved[i] != reserved[j]
      {
        assert reserved[i].id == ids[i] && reserved[j].id == ids[j];
      }
      return Ok(reserved);
    }
  }

  /** One step of `Booking.confirm`'s loop, on the statuses of its seats: confirming
      a reserved seat at position i books it and continues with the rest. */
  lemma ConfirmAllStep(cur: seq<SeatStatus>, i: nat)
    requires i < |cur| && cur[i] == Reserved
    ensures cur[..i] + ConfirmAll(cur[i..]).0
      == cur[i := Booked][..i + 1] + ConfirmAll(cur[i := Booked][i + 1..]).0
    ensures ConfirmAll(cur[i..]).1 == ConfirmAll(cur[i := Booked][i + 1..]).1
  {
    assert cur[i..][1..] == cur[i + 1..] == cur[i := Booked][i + 1..];
    assert cur[i := Booked][..i + 1] == cur[..i] + [Booked];
  }

  /** The step of `Booking.confirm`'s loop that meets a seat that is not reserved:
      it and the seats after it are left alone, and confirmation fails. */
  lemma ConfirmAllStop(cur: seq<SeatStatus>, i: nat)
    requires i < |cur| && cur[i] != Reserved
    ensures cur[..i] + ConfirmAll(cur[i..]).0 == cur
    ensures ConfirmAll(cur[i..]).1 == Fail(InvalidBookingStateError)
  {
    assert cur[i..][0] == cur[i];
    assert cur[..i] + cur[i..] == cur;
  }

  /** After the last seat nothing remains to confirm. */
  lemma ConfirmAllEnd(cur: seq<SeatStatus>)
    ensures cur[..|cur|] + ConfirmAll(cur[|cur|..]).0 == cur
    ensures ConfirmAll(cur[|cur|..]).1 == Pass
  {
    assert cur[|cur|..] == [];
  }

  class Booking {
    const id: string
    const seats: seq<Seat>
    var status: BookingStatus

    function SeatStatuses(): (r: seq<SeatStatus>)
      reads seats
      ensures |r| == |seats| && forall i :: 0 <= i < |seats| ==> r[i] == seats[i].status
    {
      seq(|seats|, i reads seats requires 0 <= i < |seats| => seats[i].status)
    }

    function State(): BookingState
      reads this, seats
    {
      BookingState(status, SeatStatuses())
    }

    /** A new booking is pending. */
    constructor (id: string, seats: seq<Seat>)
      ensures this.id == id && this.seats == seats && status == Pending
    {
      this.id := id;
      this.seats := seats;
      status := Pending;
    }

    /** `confirm`: see `ConfirmBookingState`. */
    method Confirm() returns (outcome: Outcome<BookingError>)
      requires Distinct(seats)
      modifies this`status, seats
      ensures (State(), outcome) == ConfirmBookingState(old(State()))
    {
      if status != Pending {
        return Fail(InvalidBookingStateError);
      }
      outcome := ConfirmSeats();
      if outcome.Pass? {
        status := Confirmed;
      }
    }

    /** The loop of `confirm`: each seat in turn is confirmed, stopping at the first
        one that is not reserved (the seats before it stay booked). */
    method ConfirmSeats() returns (outcome: Outcome<BookingError>)
      requires Distinct(seats)
      modifies seats
      ensures SeatStatuses() == ConfirmAll(old(SeatStatuses())).0
      ensures outcome == ConfirmAll(old(SeatStatuses())).1
    {
      ghost var cur := SeatStatuses();
      ghost var target := ConfirmAll(old(SeatStatuses()));
      assert cur[0..] == cur;
      for i := 0 to |seats|
        invariant cur == SeatStatuses()
        invariant target.0 == cur[..i] + ConfirmAll(cur[i..]).0
        invariant target.1 == ConfirmAll(cur[i..]).1
      {
        var o := ConfirmSeatAt(i);
        if o.Fail? {
          ConfirmAllStop(cur, i);
          assert SeatStatuses() == target.0;
          return o;
        }
        ConfirmAllStep(cur, i);
        cur := SeatStatuses();
      }
      ConfirmAllEnd(cur);
      assert SeatStatuses() == target.0;
      return Pass;
    }

    /** `seat.confirm()` on the i-th seat; the other seats are untouched. */
    method ConfirmSeatAt(i: nat) returns (outcome: Outcome<BookingError>)
      requires Distinct(seats) && i < |seats|
      modifies seats[i]
      ensures SeatStatuses() == old(SeatStatuses())[i := ConfirmSeat(old(SeatStatuses())[i]).0]
      ensures outcome == ConfirmSeat(old(SeatStatuses())[i]).1
    {
      outcome := seats[i].Confirm();
    }

    /** `seat.release()` on the i-th seat; the other seats are untouched. */
    method ReleaseAt(i: nat)
      requires Distinct(seats) && i < |seats|
      modifies seats[i]
      ensures SeatStatuses() == old(SeatStatuses())[i := Available]
    {
      seats[i].Release();
    }

    /** What `confirm_booking` does to a booking once the payment processor has
        answered: see `PayAndConfirm`. */
    method ApplyPayment(reply: PaymentReply) returns (outcome: Outcome<BookingError>)
      requires Distinct(seats)
      modifies this`status, seats
      ensures State() == PayAndConfirm(old(State()), reply).0
      ensures outcome == PayAndConfirm(old(State()), reply).1
    {
      match reply
      case Declined =>
        outcome := Pass;
      case Raises =>
        Cancel();
        outcome := Fail(PaymentError);
      case Approved =>
        outcome := Confirm();
        if outcome.Fail? {
          Cancel();
        }
    }

    /** `cancel`: see `CancelBookingState`. */
    method Cancel()
      requires Distinct(seats)
      modifies this`status, seats
      ensures State() == CancelBookingState(old(State()))
    {
      if status == Cancelled {
        return;
      }
      status := Cancelled;
      for i := 0 to |seats|
        invariant status == Cancelled
        invariant AllAre(SeatStatuses()[..i], Available)
      {
        ReleaseAt(i);
      }
      assert SeatStatuses()[..|seats|] == SeatStatuses();
      assert SeatStatuses() == AllAvailable(|seats|);
    }
  }

  /** `confirm_booking` once the booking is found: the payment processor is asked to
      charge the seats; an approved payment confirms the booking, a declined one
      leaves it as it is, and any exception (from the processor or from `confirm`)
      cancels the booking and is raised again. */
  function PayAndConfirm(b: BookingState, reply: PaymentReply): (BookingState, Outcome<BookingError>)
  {
    match reply
    case Declined => (b, Pass)
    case Raises => (CancelBookingState(b), Fail(PaymentError))
    case Approved =>
      var r := ConfirmBookingState(b);
      if r.1.Fail? then (CancelBookingState(r.0), r.1) else r
  }

  /** Confirmation succeeds exactly on a declined payment or on an approved payment
      for a pending booking whose seats are all reserved; then every seat is booked.
      Every failure leaves the booking cancelled, with its seats released unless it
      had already been cancelled. */
  lemma PayAndConfirmSpec(b: BookingState, reply: PaymentReply)
    ensures PayAndConfirm(b, reply).1.Pass? <==>
      reply == Declined || (reply == Approved && b.status == Pending && AllAre(b.seats, Reserved))
    ensures reply == Declined ==> PayAndConfirm(b, reply).0 == b
    ensures reply == Approved && PayAndConfirm(b, reply).1.Pass? ==>
      PayAndConfirm(b, reply).0.status == Confirmed && AllAre(PayAndConfirm(b, reply).0.seats, Booked)
    ensures PayAndConfirm(b, reply).1.Fail? ==> PayAndConfirm(b, reply).0.status == Cancelled
    ensures PayAndConfirm(b, reply).1.Fail? && b.status != Cancelled ==>
      AllAre(PayAndConfirm(b, reply).0.seats, Available)
  {
    BookingLifecycle(b);
  }

  /** The booking system: bookings by id and the booking counter. */
  class BookingSystem {
    var bookings: map<string, Booking>
    /** The next value `itertools.count(1)` will give. */
    var counter: nat

    /** Every booking is filed under its own id, which was issued from an earlier
        counter value. */
    ghost predicate Valid()
      reads this
    {
      counter >= 1 && Sound()
      && forall k :: k in bookings ==> exists n :: 1 <= n < counter && k == BookingId(n)
    }

    /** Every booking is filed under its own id and holds each seat once. */
    ghost predicate Sound()
      reads this
    {
      forall k :: k in bookings ==> bookings[k].id == k && Distinct(bookings[k].seats)
    }

    constructor ()
      ensures Valid() && bookings == map[] && counter == 1
    {
      bookings := map[];
      counter := 1;
    }

    /** `create_booking`: the seats are reserved as `Show.reserve_seats` does and any
        failure is raised again; on success a pending booking with the next id is
        filed, never replacing an earlier one. */
    method CreateBooking(show: Show, ids: seq<string>) returns (r: Result<Booking, BookingError>)
      requires Valid() && show.Valid()
      modifies this, show.seats.Values
      ensures Valid()
      ensures show.Statuses() == ReserveAll(old(show.Statuses()), ids).0
      ensures r.Err? <==> ReserveAll(old(show.Statuses()), ids).1.Fail?
      ensures r.Err? ==>
        r.error == ReserveAll(old(show.Statuses()), ids).1.error
        && bookings == old(bookings) && counter == old(counter)
      ensures r.Ok? ==>
        fresh(r.value) && r.value.id == BookingId(old(counter)) && r.value.status == Pending
        && r.value.id !in old(bookings)
        && bookings == old(bookings)[r.value.id := r.value] && counter == old(counter) + 1
        && |r.value.seats| == |ids|
        && forall i :: 0 <= i < |ids| ==> ids[i] in show.seats && r.value.seats[i] == show.seats[ids[i]]
    {
      var reserved := show.ReserveSeats(ids);
      if reserved.Err? {
        return Err(reserved.error);
      }
      var bookingId := BookingId(counter);
      forall k | k in bookings
        ensures k != bookingId
      {
        var n :| 1 <= n < counter && k == BookingId(n);
        BookingIdInjective(n, counter);
      }
      counter := counter + 1;
      var booking := new Booking(bookingId, reserved.value);
      bookings := bookings[bookingId := booking];
      return Ok(booking);
    }

    /** `confirm_booking`: an unknown id raises `ValueError`; otherwise the sum of
        the seat prices is charged and the booking goes as `PayAndConfirm` says. */
    method ConfirmBooking(bookingId: string, reply: PaymentReply) returns (outcome: Outcome<BookingError>, charged: Option<int>)
      requires Sound()
      modifies if bookingId in bookings then {bookings[bookingId]} else {}
      modifies if bookingId in bookings then bookings[bookingId].seats else []
      ensures bookingId !in bookings ==> outcome == Fail(InvalidBookingId) && charged == None
      ensures bookingId in bookings ==>
        charged == Some(Total(bookings[bookingId].seats))
        && (bookings[bookingId].State(), outcome) == PayAndConfirm(old(bookings[bookingId].State()), reply)
    {
      if bookingId !in bookings {
        return Fail(InvalidBookingId), None;
      }
      var booking := bookings[bookingId];
      charged := Some(Total(booking.seats));
      outcome := booking.ApplyPayment(reply);
    }
  }

  /** `SeatFactory.create_seats`: fresh available seats laid out as `Layout` says
      (a non-positive count gives no rows or no seats per row). */
  method CreateSeats(rows: int, perRow: int) returns (seats: seq<Seat>)
    ensures Specs(seats) == Layout(if rows > 0 then rows else 0, if perRow > 0 then perRow else 0)
    ensures forall i :: 0 <= i < |seats| ==> fresh(seats[i]) && seats[i].status == Available
    ensures Distinct(seats)
  {
    var rowCount: nat := if rows > 0 then rows else 0;
    var seatCount: nat := if perRow > 0 then perRow else 0;
    seats := [];
    for row := 1 to rowCount + 1
      invariant Specs(seats) == Layout(row - 1, seatCount)
      invariant forall i :: 0 <= i < |seats| ==> fresh(seats[i]) && seats[i].status == Available
      invariant Distinct(seats)
    {
      var rowSeats := CreateRow(row, seatCount);
      forall i, j | 0 <= i < |seats| && 0 <= j < |rowSeats|
        ensures seats[i] != rowSeats[j]
      {
        assert fresh(rowSeats[j]);
      }
      DistinctConcat(seats, rowSeats);
      SpecsConcat(seats, rowSeats);
      seats := seats + rowSeats;
    }
  }

  /** One row of `create_seats`: seats 1..perRow of the row, all fresh. */
  method CreateRow(row: nat, perRow: nat) returns (seats: seq<Seat>)
    ensures Specs(seats) == RowSeats(row, perRow)
    ensures forall i :: 0 <= i < |seats| ==> fresh(seats[i]) && seats[i].status == Available
    ensures Distinct(seats)
  {
    var seatType := if row <= 2 then Premium else Normal;
    var price := if seatType == Premium then 200 else 150;
    seats := [];
    for num := 1 to perRow + 1
      invariant Specs(seats) == RowSeats(row, num - 1)
      invariant forall i :: 0 <= i < |seats| ==> fresh(seats[i]) && seats[i].status == Available
      invariant Distinct(seats)
    {
      var seat := new Seat(NatToString(row) + "-" + NatToString(num), row, seatType, price);
      assert Specs(seats + [seat]) == Specs(seats) + [SpecOf(seat)];
      seats := seats + [seat];
    }
  }
}
