/** Booking lifecycle of src/modules/booking/booking.service.ts: creating a
    PENDING booking and changing a booking's status. */
module BookingService {
  import opened Wrappers
  import opened Dates
  import opened Seqs
  import opened Domain
  import opened Store
  import opened AuthGuards

  /** Nights charged: the day difference, floored at one night. */
  function Nights(days: int): (n: int)
    ensures n >= 1
    ensures days >= 1 ==> n == days
    ensures days <= 0 ==> n == 1
  {
    if days <= 0 then 1 else days
  }

  /** On every range the services accept, the clamp never applies: the nights
      charged are exactly the days between the two dates. */
  lemma NightsOfAcceptedRange(startDate: Day, endDate: Day)
    requires DiffInDays(startDate, endDate) > 0
    ensures Nights(DiffInDays(startDate, endDate)) == endDate - startDate
    ensures startDate < endDate
  {
    DiffPositiveIffBefore(startDate, endDate);
  }

  /** `createBooking`. Checks, in order: the caller is a traveller, the range
      is non-empty, the property exists, the party fits, no CONFIRMED booking
      and no block overlaps; then appends a PENDING booking. */
  function CreateBooking(s: Store, caller: Option<AuthUser>, propertyId: nat, startDate: Day, endDate: Day, guests: int)
    : (r: Result<(Store, Booking), Error>)
    ensures !HasRole(caller, Viajero) ==> r.Failure? && r.error in {NotAuthenticated, NotAuthorized}
    ensures HasRole(caller, Viajero) && endDate <= startDate ==> r == Failure(InvalidDateRange)
    ensures HasRole(caller, Viajero) && startDate < endDate && FindProperty(s.properties, propertyId).None?
            ==> r == Failure(PropertyNotFound)
    ensures HasRole(caller, Viajero) && startDate < endDate && FindProperty(s.properties, propertyId).Some?
            && guests > FindProperty(s.properties, propertyId).value.maxGuests
            ==> r == Failure(CapacityExceeded)
    ensures HasRole(caller, Viajero) && startDate < endDate && FindProperty(s.properties, propertyId).Some?
            && guests <= FindProperty(s.properties, propertyId).value.maxGuests
            && HasConfirmedOverlap(s.bookings, propertyId, startDate, endDate, None)
            ==> r == Failure(DatesTakenByBookings)
    ensures HasRole(caller, Viajero) && startDate < endDate && FindProperty(s.properties, propertyId).Some?
            && guests <= FindProperty(s.properties, propertyId).value.maxGuests
            && !HasConfirmedOverlap(s.bookings, propertyId, startDate, endDate, None)
            && HasBlockOverlap(s.blocks, propertyId, startDate, endDate)
            ==> r == Failure(DatesBlocked)
    ensures r.Success? <==>
            && HasRole(caller, Viajero)
            && startDate < endDate
            && FindProperty(s.properties, propertyId).Some?
            && guests <= FindProperty(s.properties, propertyId).value.maxGuests
            && (forall b :: b in s.bookings ==> !BookingConflicts(b, propertyId, startDate, endDate, None))
            && (forall d :: d in s.blocks ==> !BlockConflicts(d, propertyId, startDate, endDate))
    ensures r.Success? ==>
            var (s', b) := r.value;
            && s'.bookings == s.bookings + [b]
            && s'.properties == s.properties && s'.blocks == s.blocks
            && s'.nextPropertyId == s.nextPropertyId && s'.nextBlockId == s.nextBlockId
            && s'.nextBookingId == s.nextBookingId + 1
            && b.id == s.nextBookingId
            && b.status == Pending
            && b.userId == caller.value.userId
            && b.propertyId == propertyId
            && b.startDate == startDate && b.endDate == endDate && b.guests == guests
            && b.totalPrice == FindProperty(s.properties, propertyId).value.basePricePerNight * (endDate - startDate)
  {
    var user :- RequireRole(caller, Viajero);
    var days := DiffInDays(startDate, endDate);
    if days <= 0 then Failure(InvalidDateRange)
    else match FindProperty(s.properties, propertyId)
      case None => Failure(PropertyNotFound)
      case Some(property) =>
        if guests > property.maxGuests then Failure(CapacityExceeded)
        else if HasConfirmedOverlap(s.bookings, propertyId, startDate, endDate, None) then Failure(DatesTakenByBookings)
        else if HasBlockOverlap(s.blocks, propertyId, startDate, endDate) then Failure(DatesBlocked)
        else
          var booking := Booking(s.nextBookingId, propertyId, user.userId, startDate, endDate, guests,
                                 property.basePricePerNight * Nights(days), Pending);
          Success((s.(bookings := s.bookings + [booking], nextBookingId := s.nextBookingId + 1), booking))
  }

  /** The role and range checks come before any read of the store: their
      verdict is the same whatever the store holds. */
  lemma CreateBookingEarlyChecksIgnoreStore(s1: Store, s2: Store, caller: Option<AuthUser>, propertyId: nat, startDate: Day, endDate: Day, guests: int)
    requires !HasRole(caller, Viajero) || endDate <= startDate
    ensures CreateBooking(s1, caller, propertyId, startDate, endDate, guests)
         == CreateBooking(s2, caller, propertyId, startDate, endDate, guests)
  {
  }

  /** PENDING and CANCELLED bookings never stand in the way of a new booking. */
  lemma UnconfirmedBookingsNeverBlock(s: Store, other: Booking, caller: Option<AuthUser>, propertyId: nat, startDate: Day, endDate: Day, guests: int)
    requires other.status != Confirmed
    ensures CreateBooking(s.(bookings := s.bookings + [other]), caller, propertyId, startDate, endDate, guests).Success?
         == CreateBooking(s, caller, propertyId, startDate, endDate, guests).Success?
  {
    var s2 := s.(bookings := s.bookings + [other]);
    assert forall b :: b in s2.bookings ==> b in s.bookings || b == other;
  }

  /** A successful creation keeps every store invariant. */
  lemma CreateBookingPreservesValid(s: Store, caller: Option<AuthUser>, propertyId: nat, startDate: Day, endDate: Day, guests: int)
    requires Valid(s)
    ensures CreateBooking(s, caller, propertyId, startDate, endDate, guests).Success? ==>
            Valid(CreateBooking(s, caller, propertyId, startDate, endDate, guests).value.0)
  {
    var r := CreateBooking(s, caller, propertyId, startDate, endDate, guests);
    if r.Success? {
      var (s', b) := r.value;
      assert forall x :: x in s'.bookings ==> x in s.bookings || x == b;
      assert BookingKeysValid(s'.bookings, s'.nextBookingId) by {
        forall i, j | 0 <= i < |s'.bookings| && 0 <= j < |s'.bookings| && i != j
          ensures s'.bookings[i].id != s'.bookings[j].id
        {
          if i < |s.bookings| && j < |s.bookings| {
            assert s'.bookings[i] == s.bookings[i] && s'.bookings[j] == s.bookings[j];
          } else if i < |s.bookings| {
            assert s.bookings[i] in s.bookings;
          } else {
            assert s.bookings[j] in s.bookings;
          }
        }
      }
    }
  }

  /** `updateBookingStatus`. Checks that the caller owns the booking's
      property; when the target is CONFIRMED, re-checks overlaps against the
      other CONFIRMED bookings and the blocks; then overwrites the status. No
      transition table is consulted. */
  function UpdateBookingStatus(s: Store, caller: Option<AuthUser>, id: nat, status: BookingStatus)
    : (r: Result<(Store, Booking), Error>)
    ensures !HasRole(caller, Propietario) ==> r.Failure? && r.error in {NotAuthenticated, NotAuthorized}
    ensures HasRole(caller, Propietario) && FindIndex(s.bookings, BookingKey, id).None? ==> r == Failure(BookingNotFound)
    ensures r.Success? ==>
            && FindIndex(s.bookings, BookingKey, id).Some?
            && var i := FindIndex(s.bookings, BookingKey, id).value;
            var old_ := s.bookings[i];
            var (s', b) := r.value;
            && HasRole(caller, Propietario)
            && FindProperty(s.properties, old_.propertyId).Some?
            && FindProperty(s.properties, old_.propertyId).value.ownerId == caller.value.userId
            && b == old_.(status := status)
            && s'.bookings == s.bookings[i := b]
            && s' == s.(bookings := s'.bookings)
    ensures HasRole(caller, Propietario) && FindIndex(s.bookings, BookingKey, id).Some? ==>
            var b := s.bookings[FindIndex(s.bookings, BookingKey, id).value];
            var owned := FindProperty(s.properties, b.propertyId).Some?
                         && FindProperty(s.properties, b.propertyId).value.ownerId == caller.value.userId;
            && (!owned ==> r == Failure(NotOwnerOfBooking))
            && (owned && status != Confirmed ==> r.Success?)
            && (owned && status == Confirmed ==>
                  (r.Success? <==>
                     && (forall c :: c in s.bookings ==> !BookingConflicts(c, b.propertyId, b.startDate, b.endDate, Some(b.id)))
                     && (forall d :: d in s.blocks ==> !BlockConflicts(d, b.propertyId, b.startDate, b.endDate))))
            && (owned && status == Confirmed && HasConfirmedOverlap(s.bookings, b.propertyId, b.startDate, b.endDate, Some(b.id))
                ==> r == Failure(ConfirmConflictsWithBooking))
            && (owned && status == Confirmed && !HasConfirmedOverlap(s.bookings, b.propertyId, b.startDate, b.endDate, Some(b.id))
                && HasBlockOverlap(s.blocks, b.propertyId, b.startDate, b.endDate)
                ==> r == Failure(ConfirmConflictsWithBlock))
  {
    var user :- RequireRole(caller, Propietario);
    match FindIndex(s.bookings, BookingKey, id)
    case None => Failure(BookingNotFound)
    case Some(i) =>
      var booking := s.bookings[i];
      var property := FindProperty(s.properties, booking.propertyId);
      if property.None? || property.value.ownerId != user.userId then Failure(NotOwnerOfBooking)
      else if status == Confirmed && HasConfirmedOverlap(s.bookings, booking.propertyId, booking.startDate, booking.endDate, Some(booking.id))
      then Failure(ConfirmConflictsWithBooking)
      else if status == Confirmed && HasBlockOverlap(s.blocks, booking.propertyId, booking.startDate, booking.endDate)
      then Failure(ConfirmConflictsWithBlock)
      else
        var updated := booking.(status := status);
        Success((s.(bookings := s.bookings[i := updated]), updated))
  }

  /** Replacing row `i` of a table by a row that is no longer, or is
      re-checked before becoming, CONFIRMED keeps the overlap invariants. */
  lemma SetStatusPreservesValid(s: Store, i: nat, status: BookingStatus)
    requires Valid(s)
    requires i < |s.bookings|
    requires status == Confirmed ==>
               && (forall c :: c in s.bookings ==> !BookingConflicts(c, s.bookings[i].propertyId, s.bookings[i].startDate, s.bookings[i].endDate, Some(s.bookings[i].id)))
               && (forall d :: d in s.blocks ==> !BlockConflicts(d, s.bookings[i].propertyId, s.bookings[i].startDate, s.bookings[i].endDate))
    ensures Valid(s.(bookings := s.bookings[i := s.bookings[i].(status := status)]))
  {
    var b := s.bookings[i];
    var u := b.(status := status);
    var bs' := s.bookings[i := u];
    assert forall x :: x in bs' ==> x in s.bookings || x == u;
    assert BookingKeysValid(bs', s.nextBookingId) by {
      assert b in s.bookings;
      forall x, y | 0 <= x < |bs'| && 0 <= y < |bs'| && x != y
        ensures bs'[x].id != bs'[y].id
      {
        assert bs'[x].id == s.bookings[x].id && bs'[y].id == s.bookings[y].id;
      }
    }
    assert ConfirmedDisjoint(bs') by {
      forall x, y | x in bs' && y in bs' && x.id != y.id && x.status == Confirmed && y.status == Confirmed && x.propertyId == y.propertyId
        ensures !RangesOverlap(x.startDate, x.endDate, y.startDate, y.endDate)
      {
        if x == u {
          assert y in s.bookings;
          assert !BookingConflicts(y, b.propertyId, b.startDate, b.endDate, Some(b.id));
        } else if y == u {
          assert x in s.bookings;
          assert !BookingConflicts(x, b.propertyId, b.startDate, b.endDate, Some(b.id));
        }
      }
    }
    assert BlocksAvoidConfirmed(s.blocks, bs') by {
      forall d, y | d in s.blocks && y in bs' && y.status == Confirmed && d.propertyId == y.propertyId
        ensures !RangesOverlap(d.startDate, d.endDate, y.startDate, y.endDate)
      {
        if y == u {
          assert !BlockConflicts(d, b.propertyId, b.startDate, b.endDate);
        }
      }
    }
  }

  /** A successful status change keeps every store invariant; in particular no
      two CONFIRMED bookings of a property ever overlap. */
  lemma UpdateBookingStatusPreservesValid(s: Store, caller: Option<AuthUser>, id: nat, status: BookingStatus)
    requires Valid(s)
    ensures UpdateBookingStatus(s, caller, id, status).Success? ==>
            Valid(UpdateBookingStatus(s, caller, id, status).value.0)
  {
    if UpdateBookingStatus(s, caller, id, status).Success? {
      var i := FindIndex(s.bookings, BookingKey, id).value;
      SetStatusPreservesValid(s, i, status);
    }
  }

  /** In a valid store a booking never conflicts with itself: asking for the
      status it already has succeeds for the owner and changes nothing. */
  lemma SameStatusUpdateIsNoOp(s: Store, caller: Option<AuthUser>, id: nat)
    requires Valid(s)
    requires HasRole(caller, Propietario)
    requires FindIndex(s.bookings, BookingKey, id).Some?
    requires var b := s.bookings[FindIndex(s.bookings, BookingKey, id).value];
             FindProperty(s.properties, b.propertyId).Some?
             && FindProperty(s.properties, b.propertyId).value.ownerId == caller.value.userId
    ensures var b := s.bookings[FindIndex(s.bookings, BookingKey, id).value];
            UpdateBookingStatus(s, caller, id, b.status) == Success((s, b))
  {
    var i := FindIndex(s.bookings, BookingKey, id).value;
    var b := s.bookings[i];
    assert b in s.bookings;
    if b.status == Confirmed {
      assert forall c :: c in s.bookings ==> !BookingConflicts(c, b.propertyId, b.startDate, b.endDate, Some(b.id));
      assert forall d :: d in s.blocks ==> !BlockConflicts(d, b.propertyId, b.startDate, b.endDate);
    }
    assert s.bookings[i := b.(status := b.status)] == s.bookings;
  }

  // ----- the state machine the tests expect -----

  /** PENDING -> CONFIRMED or CANCELLED, CONFIRMED -> CANCELLED; CANCELLED is final. */
  predicate TransitionAllowed(from: BookingStatus, to: BookingStatus) {
    || (from == Pending && (to == Confirmed || to == Cancelled))
    || (from == Confirmed && to == Cancelled)
  }

  /** A guarded variant of `updateBookingStatus`, corrected to the transition
      table the booking tests expect: after the ownership checks, a request for
      the current status is a no-op, a transition outside the table fails, and
      anything else proceeds as in `UpdateBookingStatus`. */
  function UpdateBookingStatusGuarded(s: Store, caller: Option<AuthUser>, id: nat, status: BookingStatus)
    : (r: Result<(Store, Booking), Error>)
    ensures !HasRole(caller, Propietario) ==> r.Failure? && r.error in {NotAuthenticated, NotAuthorized}
    ensures HasRole(caller, Propietario) && FindIndex(s.bookings, BookingKey, id).None? ==> r == Failure(BookingNotFound)
    ensures r.Success? ==>
            && FindIndex(s.bookings, BookingKey, id).Some?
            && var old_ := s.bookings[FindIndex(s.bookings, BookingKey, id).value];
            var (s', b) := r.value;
            && b == old_.(status := status)
            && (status == old_.status || TransitionAllowed(old_.status, status))
            && (status == old_.status ==> s' == s)
    ensures HasRole(caller, Propietario) && FindIndex(s.bookings, BookingKey, id).Some? ==>
            var i := FindIndex(s.bookings, BookingKey, id).value;
            var b := s.bookings[i];
            var owned := FindProperty(s.properties, b.propertyId).Some?
                         && FindProperty(s.properties, b.propertyId).value.ownerId == caller.value.userId;
            var free := !HasConfirmedOverlap(s.bookings, b.propertyId, b.startDate, b.endDate, Some(b.id))
                        && !HasBlockOverlap(s.blocks, b.propertyId, b.startDate, b.endDate);
            && (!owned ==> r == Failure(NotOwnerOfBooking))
            && (owned && status == b.status ==> r == Success((s, b)))
            && (owned && status != b.status && !TransitionAllowed(b.status, status)
                ==> r == Failure(InvalidStatusTransition))
            && (owned && status != b.status && TransitionAllowed(b.status, status) ==>
                  && (r.Success? <==> status != Confirmed || free)
                  && (r.Success? ==> r.value == (s.(bookings := s.bookings[i := b.(status := status)]), b.(status := status)))
                  && (status == Confirmed && HasConfirmedOverlap(s.bookings, b.propertyId, b.startDate, b.endDate, Some(b.id))
                      ==> r == Failure(ConfirmConflictsWithBooking))
                  && (status == Confirmed && !HasConfirmedOverlap(s.bookings, b.propertyId, b.startDate, b.endDate, Some(b.id))
                      && HasBlockOverlap(s.blocks, b.propertyId, b.startDate, b.endDate)
                      ==> r == Failure(ConfirmConflictsWithBlock)))
  {
    var user :- RequireRole(caller, Propietario);
    match FindIndex(s.bookings, BookingKey, id)
    case None => Failure(BookingNotFound)
    case Some(i) =>
      var booking := s.bookings[i];
      var property := FindProperty(s.properties, booking.propertyId);
      if property.None? || property.value.ownerId != user.userId then Failure(NotOwnerOfBooking)
      else if status == booking.status then Success((s, booking))
      else if !TransitionAllowed(booking.status, status) then Failure(InvalidStatusTransition)
      else UpdateBookingStatus(s, caller, id, status)
  }

  /** The guarded variant keeps every store invariant too. */
  lemma UpdateBookingStatusGuardedPreservesValid(s: Store, caller: Option<AuthUser>, id: nat, status: BookingStatus)
    requires Valid(s)
    ensures UpdateBookingStatusGuarded(s, caller, id, status).Success? ==>
            Valid(UpdateBookingStatusGuarded(s, caller, id, status).value.0)
  {
    UpdateBookingStatusPreservesValid(s, caller, id, status);
  }

  /** Under the guarded variant a CANCELLED booking stays CANCELLED and the
      store does not change. */
  lemma GuardedCancelledIsTerminal(s: Store, caller: Option<AuthUser>, id: nat, status: BookingStatus)
    requires FindIndex(s.bookings, BookingKey, id).Some?
    requires s.bookings[FindIndex(s.bookings, BookingKey, id).value].status == Cancelled
    ensures var r := UpdateBookingStatusGuarded(s, caller, id, status);
            r.Success? ==> r.value.0 == s && r.value.1.status == Cancelled
  {
  }

  // ----- the repository's scenarios -----

  /** A property (id 1, owner 2, four guests, 100.00 a night) and the
      bookings given. */
  function ScenarioStore(bookings: seq<Booking>): Store {
    Store([Property(1, "Casa", None, 2, 4, 10000)], bookings, [], 2, 10, 1)
  }

  /** As written, the owner can bring a CANCELLED booking back to CONFIRMED;
      the guarded variant refuses it. */
  lemma CancelledBookingCanBeReconfirmed()
    ensures var b := Booking(1, 1, 99, DayNumber(2024, 1, 1), DayNumber(2024, 1, 5), 2, 40000, Cancelled);
            var s := ScenarioStore([b]);
            var owner := Some(AuthUser(2, Propietario));
            && UpdateBookingStatus(s, owner, 1, Confirmed) == Success((ScenarioStore([b.(status := Confirmed)]), b.(status := Confirmed)))
            && UpdateBookingStatusGuarded(s, owner, 1, Confirmed) == Failure(InvalidStatusTransition)
  {
    var b := Booking(1, 1, 99, DayNumber(2024, 1, 1), DayNumber(2024, 1, 5), 2, 40000, Cancelled);
    var s := ScenarioStore([b]);
    assert FindIndex(s.bookings, BookingKey, 1) == Some(0);
    assert !HasConfirmedOverlap(s.bookings, 1, b.startDate, b.endDate, Some(1));
    assert [b][0 := b.(status := Confirmed)] == [b.(status := Confirmed)];
  }

  lemma CreateBookingScenarios()
    ensures var traveller := Some(AuthUser(10, Viajero));
            var s := ScenarioStore([]);
            && CreateBooking(s, traveller, 1, DayNumber(2024, 1, 1), DayNumber(2024, 1, 3), 2).Success?
            && CreateBooking(s, traveller, 1, DayNumber(2024, 1, 1), DayNumber(2024, 1, 3), 2).value.1
               == Booking(10, 1, 10, DayNumber(2024, 1, 1), DayNumber(2024, 1, 3), 2, 20000, Pending)
            && CreateBooking(s, traveller, 1, DayNumber(2024, 1, 1), DayNumber(2024, 1, 3), 5) == Failure(CapacityExceeded)
            && CreateBooking(s, traveller, 1, DayNumber(2024, 1, 5), DayNumber(2024, 1, 1), 1) == Failure(InvalidDateRange)
            && CreateBooking(s, traveller, 7, DayNumber(2024, 1, 1), DayNumber(2024, 1, 2), 1) == Failure(PropertyNotFound)
  {
    var s := ScenarioStore([]);
    assert FindProperty(s.properties, 1) == Some(s.properties[0]);
  }

  /** Booking A is CONFIRMED for 2024-01-01..01-05; confirming the PENDING
      booking B for 2024-01-03..01-07 fails and nothing changes. */
  lemma ConfirmBlockedByOverlapScenario()
    ensures var a := Booking(1, 1, 99, DayNumber(2024, 1, 1), DayNumber(2024, 1, 5), 2, 40000, Confirmed);
            var b := Booking(2, 1, 98, DayNumber(2024, 1, 3), DayNumber(2024, 1, 7), 2, 40000, Pending);
            UpdateBookingStatus(ScenarioStore([a, b]), Some(AuthUser(2, Propietario)), 2, Confirmed)
            == Failure(ConfirmConflictsWithBooking)
  {
    var a := Booking(1, 1, 99, DayNumber(2024, 1, 1), DayNumber(2024, 1, 5), 2, 40000, Confirmed);
    var b := Booking(2, 1, 98, DayNumber(2024, 1, 3), DayNumber(2024, 1, 7), 2, 40000, Pending);
    var s := ScenarioStore([a, b]);
    assert FindIndex(s.bookings, BookingKey, 2) == Some(1);
    assert BookingConflicts(s.bookings[0], 1, b.startDate, b.endDate, Some(2));
  }
}
