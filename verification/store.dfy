/** The in-memory store that replaces the ORM tables, the primary-key lookups
    (`findByPk`), the overlap queries the services issue through `findAll`,
    and the invariants the services maintain over the store. */
module Store {
  import opened Wrappers
  import opened Dates
  import opened Seqs
  import opened Domain

  /** The three tables, each with its auto-increment counter. */
  datatype Store = Store(
    properties: seq<Property>,
    bookings: seq<Booking>,
    blocks: seq<BlockedDate>,
    nextPropertyId: nat,
    nextBookingId: nat,
    nextBlockId: nat)

  /** `Property.findByPk(id)`. */
  function FindProperty(ps: seq<Property>, id: nat): (r: Option<Property>)
    ensures r.Some? ==> r.value in ps && r.value.id == id
    ensures r.None? <==> forall p :: p in ps ==> p.id != id
  {
    match FindIndex(ps, PropertyKey, id)
    case None => None
    case Some(i) => Some(ps[i])
  }

  /** The `where` clause of the confirmed-booking queries: same property,
      status CONFIRMED, optionally another id than `exclude`, and
      `startDate <= end && endDate >= start`. */
  predicate BookingConflicts(b: Booking, propertyId: nat, start: Day, end: Day, exclude: Option<nat>) {
    && b.propertyId == propertyId
    && b.status == Confirmed
    && (exclude.None? || b.id != exclude.value)
    && RangesOverlap(b.startDate, b.endDate, start, end)
  }

  /** The `where` clause of the blocked-date queries. */
  predicate BlockConflicts(d: BlockedDate, propertyId: nat, start: Day, end: Day) {
    d.propertyId == propertyId && RangesOverlap(d.startDate, d.endDate, start, end)
  }

  /** `Booking.findAll` for confirmed bookings overlapping a range. */
  function OverlappingConfirmed(bs: seq<Booking>, propertyId: nat, start: Day, end: Day, exclude: Option<nat>): (r: seq<Booking>)
    ensures forall b :: b in r <==> b in bs && BookingConflicts(b, propertyId, start, end, exclude)
  {
    Filter(bs, b => BookingConflicts(b, propertyId, start, end, exclude))
  }

  /** `BlockedDate.findAll` for blocks overlapping a range. */
  function OverlappingBlocks(ds: seq<BlockedDate>, propertyId: nat, start: Day, end: Day): (r: seq<BlockedDate>)
    ensures forall d :: d in r <==> d in ds && BlockConflicts(d, propertyId, start, end)
  {
    Filter(ds, d => BlockConflicts(d, propertyId, start, end))
  }

  /** The availability checker: is some confirmed booking in the way? */
  predicate HasConfirmedOverlap(bs: seq<Booking>, propertyId: nat, start: Day, end: Day, exclude: Option<nat>)
    ensures HasConfirmedOverlap(bs, propertyId, start, end, exclude)
            <==> exists k :: 0 <= k < |bs| && BookingConflicts(bs[k], propertyId, start, end, exclude)
  {
    var found := OverlappingConfirmed(bs, propertyId, start, end, exclude);
    assert |found| > 0 ==> found[0] in found;
    |found| > 0
  }

  predicate HasBlockOverlap(ds: seq<BlockedDate>, propertyId: nat, start: Day, end: Day)
    ensures HasBlockOverlap(ds, propertyId, start, end)
            <==> exists k :: 0 <= k < |ds| && BlockConflicts(ds[k], propertyId, start, end)
  {
    var found := OverlappingBlocks(ds, propertyId, start, end);
    assert |found| > 0 ==> found[0] in found;
    |found| > 0
  }

  // ----- deletion (ON DELETE CASCADE) -----

  /** Row tests of the deletion statements, as named closures so that every
      use denotes the same test. */
  function PropertyIdOtherThan(id: nat): Property -> bool {
    (p: Property) => p.id != id
  }

  function BookingOfOtherProperty(propertyId: nat): Booking -> bool {
    (b: Booking) => b.propertyId != propertyId
  }

  function BlockOfOtherProperty(propertyId: nat): BlockedDate -> bool {
    (d: BlockedDate) => d.propertyId != propertyId
  }

  /** `DELETE FROM Properties WHERE id = ?`. */
  function DeletePropertyRows(ps: seq<Property>, id: nat): (r: seq<Property>)
    ensures forall p :: p in r <==> p in ps && p.id != id
  {
    Filter(ps, PropertyIdOtherThan(id))
  }

  /** The bookings the cascade keeps when property `propertyId` is deleted. */
  function DeleteBookingsOf(bs: seq<Booking>, propertyId: nat): (r: seq<Booking>)
    ensures forall b :: b in r <==> b in bs && b.propertyId != propertyId
  {
    Filter(bs, BookingOfOtherProperty(propertyId))
  }

  /** The blocked dates the cascade keeps when property `propertyId` is deleted. */
  function DeleteBlocksOf(ds: seq<BlockedDate>, propertyId: nat): (r: seq<BlockedDate>)
    ensures forall d :: d in r <==> d in ds && d.propertyId != propertyId
  {
    Filter(ds, BlockOfOtherProperty(propertyId))
  }

  // ----- invariants -----

  function PropertyKey(p: Property): int { p.id }
  function BookingKey(b: Booking): int { b.id }
  function BlockKey(d: BlockedDate): int { d.id }

  /** Primary keys are distinct and below the auto-increment counter. */
  predicate PropertyKeysValid(ps: seq<Property>, next: nat) {
    (forall p :: p in ps ==> p.id < next) && DistinctKeys(ps, PropertyKey)
  }

  predicate BookingKeysValid(bs: seq<Booking>, next: nat) {
    (forall b :: b in bs ==> b.id < next) && DistinctKeys(bs, BookingKey)
  }

  predicate BlockKeysValid(ds: seq<BlockedDate>, next: nat) {
    (forall d :: d in ds ==> d.id < next) && DistinctKeys(ds, BlockKey)
  }

  /** The central invariant: no two CONFIRMED bookings (distinct rows) of one
      property overlap. */
  predicate ConfirmedDisjoint(bs: seq<Booking>) {
    forall a, b ::
      a in bs && b in bs && a.id != b.id
      && a.status == Confirmed && b.status == Confirmed && a.propertyId == b.propertyId
      ==> !RangesOverlap(a.startDate, a.endDate, b.startDate, b.endDate)
  }

  /** Blocks (distinct rows) of one property never overlap each other. */
  predicate BlocksDisjoint(ds: seq<BlockedDate>) {
    forall d, e ::
      d in ds && e in ds && d.id != e.id && d.propertyId == e.propertyId
      ==> !RangesOverlap(d.startDate, d.endDate, e.startDate, e.endDate)
  }

  /** No block overlaps a CONFIRMED booking of its property. */
  predicate BlocksAvoidConfirmed(ds: seq<BlockedDate>, bs: seq<Booking>) {
    forall d, b ::
      d in ds && b in bs && b.status == Confirmed && d.propertyId == b.propertyId
      ==> !RangesOverlap(d.startDate, d.endDate, b.startDate, b.endDate)
  }

  predicate Valid(s: Store) {
    && PropertyKeysValid(s.properties, s.nextPropertyId)
    && BookingKeysValid(s.bookings, s.nextBookingId)
    && BlockKeysValid(s.blocks, s.nextBlockId)
    && ConfirmedDisjoint(s.bookings)
    && BlocksDisjoint(s.blocks)
    && BlocksAvoidConfirmed(s.blocks, s.bookings)
  }

  /** The empty database satisfies every invariant. */
  lemma EmptyStoreValid()
    ensures Valid(Store([], [], [], 1, 1, 1))
  {
  }

  /** With distinct keys, the row found by key is the only one with that key. */
  lemma FoundBookingIsUnique(bs: seq<Booking>, next: nat, id: nat)
    requires BookingKeysValid(bs, next)
    requires FindIndex(bs, BookingKey, id).Some?
    ensures forall k :: 0 <= k < |bs| && bs[k].id == id ==> k == FindIndex(bs, BookingKey, id).value
  {
  }
}
