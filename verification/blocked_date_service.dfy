/** Owner-declared unavailability of src/modules/blocked-date/blocked-date.service.ts. */
module BlockedDateService {
  import opened Wrappers
  import opened Dates
  import opened Domain
  import opened Store
  import opened AuthGuards

  /** `createBlockedDate`. Checks, in order: the caller is an owner, the range
      is non-empty, the property exists and is the caller's, no CONFIRMED
      booking and no existing block overlaps; then appends the block. */
  function CreateBlockedDate(s: Store, caller: Option<AuthUser>, propertyId: nat, startDate: Day, endDate: Day)
    : (r: Result<(Store, BlockedDate), Error>)
    ensures !HasRole(caller, Propietario) ==> r.Failure? && r.error in {NotAuthenticated, NotAuthorized}
    ensures HasRole(caller, Propietario) && endDate <= startDate ==> r == Failure(InvalidDateRange)
    ensures HasRole(caller, Propietario) && startDate < endDate && FindProperty(s.properties, propertyId).None?
            ==> r == Failure(PropertyNotFound)
    ensures HasRole(caller, Propietario) && startDate < endDate && FindProperty(s.properties, propertyId).Some?
            && FindProperty(s.properties, propertyId).value.ownerId != caller.value.userId
            ==> r == Failure(NotOwnerToBlock)
    ensures HasRole(caller, Propietario) && startDate < endDate && FindProperty(s.properties, propertyId).Some?
            && FindProperty(s.properties, propertyId).value.ownerId == caller.value.userId
            && HasConfirmedOverlap(s.bookings, propertyId, startDate, endDate, None)
            ==> r == Failure(BlockOverlapsBookings)
    ensures HasRole(caller, Propietario) && startDate < endDate && FindProperty(s.properties, propertyId).Some?
            && FindProperty(s.properties, propertyId).value.ownerId == caller.value.userId
            && !HasConfirmedOverlap(s.bookings, propertyId, startDate, endDate, None)
            && HasBlockOverlap(s.blocks, propertyId, startDate, endDate)
            ==> r == Failure(BlockOverlapsBlocks)
    ensures r.Success? <==>
            && HasRole(caller, Propietario)
            && startDate < endDate
            && FindProperty(s.properties, propertyId).Some?
            && FindProperty(s.properties, propertyId).value.ownerId == caller.value.userId
            && (forall b :: b in s.bookings ==> !BookingConflicts(b, propertyId, startDate, endDate, None))
            && (forall d :: d in s.blocks ==> !BlockConflicts(d, propertyId, startDate, endDate))
    ensures r.Success? ==>
            var (s', d) := r.value;
            && d == BlockedDate(s.nextBlockId, propertyId, startDate, endDate)
            && s'.blocks == s.blocks + [d]
            && s' == s.(blocks := s'.blocks, nextBlockId := s.nextBlockId + 1)
  {
    var user :- RequireRole(caller, Propietario);
    var days := DiffInDays(startDate, endDate);
    if days <= 0 then Failure(InvalidDateRange)
    else match FindProperty(s.properties, propertyId)
      case None => Failure(PropertyNotFound)
      case Some(property) =>
        if property.ownerId != user.userId then Failure(NotOwnerToBlock)
        else if HasConfirmedOverlap(s.bookings, propertyId, startDate, endDate, None) then Failure(BlockOverlapsBookings)
        else if HasBlockOverlap(s.blocks, propertyId, startDate, endDate) then Failure(BlockOverlapsBlocks)
        else
          var blocked := BlockedDate(s.nextBlockId, propertyId, startDate, endDate);
          Success((s.(blocks := s.blocks + [blocked], nextBlockId := s.nextBlockId + 1), blocked))
  }

  /** A successful block keeps every store invariant: blocks of a property stay
      pairwise disjoint and clear of CONFIRMED bookings. */
  lemma CreateBlockedDatePreservesValid(s: Store, caller: Option<AuthUser>, propertyId: nat, startDate: Day, endDate: Day)
    requires Valid(s)
    ensures CreateBlockedDate(s, caller, propertyId, startDate, endDate).Success? ==>
            Valid(CreateBlockedDate(s, caller, propertyId, startDate, endDate).value.0)
  {
    var r := CreateBlockedDate(s, caller, propertyId, startDate, endDate);
    if r.Success? {
      var (s', d) := r.value;
      assert forall x :: x in s'.blocks ==> x in s.blocks || x == d;
      assert BlockKeysValid(s'.blocks, s'.nextBlockId) by {
        forall i, j | 0 <= i < |s'.blocks| && 0 <= j < |s'.blocks| && i != j
          ensures s'.blocks[i].id != s'.blocks[j].id
        {
          if i < |s.blocks| && j < |s.blocks| {
            assert s'.blocks[i] == s.blocks[i] && s'.blocks[j] == s.blocks[j];
          } else if i < |s.blocks| {
            assert s.blocks[i] in s.blocks;
          } else {
            assert s.blocks[j] in s.blocks;
          }
        }
      }
      assert BlocksDisjoint(s'.blocks) by {
        forall x, y | x in s'.blocks && y in s'.blocks && x.id != y.id && x.propertyId == y.propertyId
          ensures !RangesOverlap(x.startDate, x.endDate, y.startDate, y.endDate)
        {
          if x == d {
            assert !BlockConflicts(y, propertyId, startDate, endDate);
          } else if y == d {
            assert !BlockConflicts(x, propertyId, startDate, endDate);
          }
        }
      }
      assert BlocksAvoidConfirmed(s'.blocks, s'.bookings) by {
        forall x, b | x in s'.blocks && b in s'.bookings && b.status == Confirmed && x.propertyId == b.propertyId
          ensures !RangesOverlap(x.startDate, x.endDate, b.startDate, b.endDate)
        {
          if x == d {
            assert !BookingConflicts(b, propertyId, startDate, endDate, None);
          }
        }
      }
    }
  }

  /** The examples of the blocked-date tests, on a property (id 1) owned by user 1. */
  lemma CreateBlockedDateScenarios()
    ensures var owner := Some(AuthUser(1, Propietario));
            var p := Property(1, "Casa", None, 1, 4, 10000);
            var s := Store([p], [], [], 2, 1, 10);
            var feb1 := DayNumber(2024, 2, 1);
            var feb5 := DayNumber(2024, 2, 5);
            var confirmed := Booking(99, 1, 7, feb1, feb5, 2, 40000, Confirmed);
            && CreateBlockedDate(s, owner, 1, feb5, feb1) == Failure(InvalidDateRange)
            && CreateBlockedDate(s, owner, 1, feb1, feb5) == Success((s.(blocks := [BlockedDate(10, 1, feb1, feb5)], nextBlockId := 11), BlockedDate(10, 1, feb1, feb5)))
            && CreateBlockedDate(s.(bookings := [confirmed]), owner, 1, feb1, feb5) == Failure(BlockOverlapsBookings)
            && CreateBlockedDate(s.(blocks := [BlockedDate(55, 1, feb1, feb5)]), owner, 1, feb1, feb5) == Failure(BlockOverlapsBlocks)
            && CreateBlockedDate(s.(properties := [p.(ownerId := 2)]), owner, 1, feb1, feb5) == Failure(NotOwnerToBlock)
            && CreateBlockedDate(s.(properties := []), owner, 1, feb1, feb5) == Failure(PropertyNotFound)
  {
    var p := Property(1, "Casa", None, 1, 4, 10000);
    var feb1 := DayNumber(2024, 2, 1);
    var feb5 := DayNumber(2024, 2, 5);
    var confirmed := Booking(99, 1, 7, feb1, feb5, 2, 40000, Confirmed);
    assert FindProperty([p], 1) == Some(p);
    assert FindProperty([p.(ownerId := 2)], 1) == Some(p.(ownerId := 2));
    assert BookingConflicts([confirmed][0], 1, feb1, feb5, None);
    assert BlockConflicts([BlockedDate(55, 1, feb1, feb5)][0], 1, feb1, feb5);
    var s := Store([p], [], [], 2, 1, 10);
    assert s.blocks + [BlockedDate(10, 1, feb1, feb5)] == [BlockedDate(10, 1, feb1, feb5)];
  }
}
