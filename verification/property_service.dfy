/** Property operations and availability search of
    src/modules/property/property.service.ts. */
module PropertyService {
  import opened Wrappers
  import opened Dates
  import opened Seqs
  import opened Domain
  import opened Store
  import opened AuthGuards

  // ----- ordering by id (ORDER BY id ASC) -----

  predicate SortedById(ps: seq<Property>) {
    forall i, j :: 0 <= i < j < |ps| ==> ps[i].id <= ps[j].id
  }

  function InsertById(p: Property, ps: seq<Property>): (r: seq<Property>)
    requires SortedById(ps)
    ensures SortedById(r)
    ensures multiset(r) == multiset(ps) + multiset{p}
    decreases |ps|
  {
    if |ps| == 0 then [p]
    else if p.id <= ps[0].id then
      assert SortedById([p] + ps) by {
        forall i, j | 0 <= i < j < |ps| + 1
          ensures ([p] + ps)[i].id <= ([p] + ps)[j].id
        {
          if i > 0 {
            assert ([p] + ps)[i] == ps[i - 1];
          }
        }
      }
      [p] + ps
    else
      var rest := InsertById(p, ps[1..]);
      assert ps == [ps[0]] + ps[1..];
      InsertAfterHead(p, ps, rest);
      [ps[0]] + rest
  }

  lemma InsertAfterHead(p: Property, ps: seq<Property>, rest: seq<Property>)
    requires |ps| > 0 && SortedById(ps) && ps[0].id < p.id
    requires SortedById(rest) && multiset(rest) == multiset(ps[1..]) + multiset{p}
    ensures SortedById([ps[0]] + rest)
  {
    forall k | 0 <= k < |rest|
      ensures ps[0].id <= rest[k].id
    {
      assert rest[k] in multiset(rest);
      if rest[k] != p {
        assert rest[k] in multiset(ps[1..]);
        var j :| 0 <= j < |ps[1..]| && ps[1..][j] == rest[k];
        assert ps[j + 1] == rest[k];
      }
    }
    forall i, j | 0 <= i < j < |rest| + 1
      ensures ([ps[0]] + rest)[i].id <= ([ps[0]] + rest)[j].id
    {
      assert ([ps[0]] + rest)[j] == rest[j - 1];
      if i > 0 {
        assert ([ps[0]] + rest)[i] == rest[i - 1];
      }
    }
  }

  /** Insertion sort by id. */
  function SortById(ps: seq<Property>): (r: seq<Property>)
    ensures SortedById(r)
    ensures multiset(r) == multiset(ps)
    decreases |ps|
  {
    if |ps| == 0 then []
    else
      assert ps == [ps[0]] + ps[1..];
      InsertById(ps[0], SortById(ps[1..]))
  }

  /** `getMyProperties`: the caller's properties, ordered by id. The
      pagination the resolver passes is not used by the service. */
  function GetMyProperties(s: Store, caller: Option<AuthUser>): (r: Result<seq<Property>, Error>)
    ensures !HasRole(caller, Propietario) ==> r.Failure? && r.error in {NotAuthenticated, NotAuthorized}
    ensures r.Success? <==> HasRole(caller, Propietario)
    ensures r.Success? ==> SortedById(r.value)
    ensures r.Success? ==> forall p :: multiset(r.value)[p] ==
                                       (if p.ownerId == caller.value.userId then multiset(s.properties)[p] else 0)
    ensures r.Success? ==> forall p :: p in r.value <==> p in s.properties && p.ownerId == caller.value.userId
  {
    var user :- RequireRole(caller, Propietario);
    var mine := Filter(s.properties, (p: Property) => p.ownerId == user.userId);
    var r := SortById(mine);
    assert forall p :: multiset(r)[p] == if p.ownerId == user.userId then multiset(s.properties)[p] else 0 by {
      forall p
        ensures multiset(r)[p] == if p.ownerId == user.userId then multiset(s.properties)[p] else 0
      {
        FilterMultiplicity(s.properties, (p: Property) => p.ownerId == user.userId, p);
      }
    }
    assert forall p :: p in r <==> p in mine by {
      forall p
        ensures p in r <==> p in mine
      {
        assert p in r <==> p in multiset(r);
        assert p in mine <==> p in multiset(mine);
      }
    }
    Success(r)
  }

  /** `getPropertyById`: no authentication needed. */
  function GetPropertyById(s: Store, id: nat): (r: Option<Property>)
    ensures r.Some? ==> r.value in s.properties && r.value.id == id
    ensures r.None? <==> forall p :: p in s.properties ==> p.id != id
    ensures PropertyKeysValid(s.properties, s.nextPropertyId) ==>
              forall p :: p in s.properties && p.id == id ==> r == Some(p)
  {
    var r := FindProperty(s.properties, id);
    assert PropertyKeysValid(s.properties, s.nextPropertyId) ==>
             forall p :: p in s.properties && p.id == id ==> r == Some(p) by {
      if PropertyKeysValid(s.properties, s.nextPropertyId) {
        forall p | p in s.properties && p.id == id
          ensures r == Some(p)
        {
          var k :| 0 <= k < |s.properties| && s.properties[k] == p;
          var i := FindIndex(s.properties, PropertyKey, id).value;
          assert PropertyKey(s.properties[k]) == PropertyKey(s.properties[i]);
        }
      }
    }
    r
  }

  // ----- create, update, delete -----

  /** `data.description || null`: an empty description is stored as null. */
  function StoredDescription(description: Option<string>): (r: Option<string>)
    ensures r.Some? <==> description.Some? && description.value != ""
    ensures r.Some? ==> r == description
  {
    if description.Some? && description.value != "" then description else None
  }

  /** `createProperty`: an owner lists a property under their own id. */
  function CreateProperty(s: Store, caller: Option<AuthUser>, title: string, description: Option<string>, maxGuests: int, basePricePerNight: int)
    : (r: Result<(Store, Property), Error>)
    ensures !HasRole(caller, Propietario) ==> r.Failure? && r.error in {NotAuthenticated, NotAuthorized}
    ensures r.Success? <==> HasRole(caller, Propietario)
    ensures r.Success? ==>
            var (s', p) := r.value;
            && p == Property(s.nextPropertyId, title, StoredDescription(description), caller.value.userId, maxGuests, basePricePerNight)
            && s' == s.(properties := s.properties + [p], nextPropertyId := s.nextPropertyId + 1)
  {
    var user :- RequireRole(caller, Propietario);
    var property := Property(s.nextPropertyId, title, StoredDescription(description), user.userId, maxGuests, basePricePerNight);
    Success((s.(properties := s.properties + [property], nextPropertyId := s.nextPropertyId + 1), property))
  }

  lemma CreatePropertyPreservesValid(s: Store, caller: Option<AuthUser>, title: string, description: Option<string>, maxGuests: int, basePricePerNight: int)
    requires Valid(s)
    ensures CreateProperty(s, caller, title, description, maxGuests, basePricePerNight).Success? ==>
            Valid(CreateProperty(s, caller, title, description, maxGuests, basePricePerNight).value.0)
  {
    var r := CreateProperty(s, caller, title, description, maxGuests, basePricePerNight);
    if r.Success? {
      var (s', p) := r.value;
      forall i, j | 0 <= i < |s'.properties| && 0 <= j < |s'.properties| && i != j
        ensures PropertyKey(s'.properties[i]) != PropertyKey(s'.properties[j])
      {
        if i < |s.properties| && j < |s.properties| {
          assert s'.properties[i] == s.properties[i] && s'.properties[j] == s.properties[j];
        } else if i < |s.properties| {
          assert s.properties[i] in s.properties;
        } else {
          assert s.properties[j] in s.properties;
        }
      }
      assert forall q :: q in s'.properties ==> q in s.properties || q == p;
    }
  }

  /** The optional fields of `updateProperty`; `None` is an omitted field. */
  datatype PropertyPatch = PropertyPatch(
    title: Option<string>,
    description: Option<string>,
    maxGuests: Option<int>,
    basePricePerNight: Option<int>)

  function ApplyPatch(p: Property, patch: PropertyPatch): Property {
    p.(title := if patch.title.Some? then patch.title.value else p.title,
       description := if patch.description.Some? then patch.description else p.description,
       maxGuests := if patch.maxGuests.Some? then patch.maxGuests.value else p.maxGuests,
       basePricePerNight := if patch.basePricePerNight.Some? then patch.basePricePerNight.value else p.basePricePerNight)
  }

  /** `updateProperty`: the owner overwrites exactly the supplied fields. */
  function UpdateProperty(s: Store, caller: Option<AuthUser>, id: nat, patch: PropertyPatch)
    : (r: Result<(Store, Property), Error>)
    ensures !HasRole(caller, Propietario) ==> r.Failure? && r.error in {NotAuthenticated, NotAuthorized}
    ensures HasRole(caller, Propietario) && FindIndex(s.properties, PropertyKey, id).None? ==> r == Failure(PropertyNotFound)
    ensures HasRole(caller, Propietario) && FindIndex(s.properties, PropertyKey, id).Some?
            && s.properties[FindIndex(s.properties, PropertyKey, id).value].ownerId != caller.value.userId
            ==> r == Failure(NotOwnerToModify)
    ensures r.Success? <==>
            && HasRole(caller, Propietario)
            && FindIndex(s.properties, PropertyKey, id).Some?
            && s.properties[FindIndex(s.properties, PropertyKey, id).value].ownerId == caller.value.userId
    ensures r.Success? ==>
            var i := FindIndex(s.properties, PropertyKey, id).value;
            var old_ := s.properties[i];
            var (s', p) := r.value;
            && s' == s.(properties := s.properties[i := p])
            && p.id == old_.id && p.ownerId == old_.ownerId
            && (patch.title.Some? ==> p.title == patch.title.value)
            && (patch.title.None? ==> p.title == old_.title)
            && (patch.description.Some? ==> p.description == patch.description)
            && (patch.description.None? ==> p.description == old_.description)
            && (patch.maxGuests.Some? ==> p.maxGuests == patch.maxGuests.value)
            && (patch.maxGuests.None? ==> p.maxGuests == old_.maxGuests)
            && (patch.basePricePerNight.Some? ==> p.basePricePerNight == patch.basePricePerNight.value)
            && (patch.basePricePerNight.None? ==> p.basePricePerNight == old_.basePricePerNight)
  {
    var user :- RequireRole(caller, Propietario);
    match FindIndex(s.properties, PropertyKey, id)
    case None => Failure(PropertyNotFound)
    case Some(i) =>
      if s.properties[i].ownerId != user.userId then Failure(NotOwnerToModify)
      else
        var updated := ApplyPatch(s.properties[i], patch);
        Success((s.(properties := s.properties[i := updated]), updated))
  }

  /** An empty patch changes nothing; applying the same patch twice is the
      same as applying it once. */
  lemma UpdatePropertyIdempotent(s: Store, caller: Option<AuthUser>, id: nat, patch: PropertyPatch)
    ensures UpdateProperty(s, caller, id, PropertyPatch(None, None, None, None)).Success? ==>
            UpdateProperty(s, caller, id, PropertyPatch(None, None, None, None)).value.0 == s
    ensures UpdateProperty(s, caller, id, patch).Success? ==>
            var s1 := UpdateProperty(s, caller, id, patch).value.0;
            UpdateProperty(s1, caller, id, patch) == UpdateProperty(s, caller, id, patch)
  {
    if UpdateProperty(s, caller, id, patch).Success? {
      var i := FindIndex(s.properties, PropertyKey, id).value;
      var s1 := UpdateProperty(s, caller, id, patch).value.0;
      assert forall k :: 0 <= k < i ==> s1.properties[k] == s.properties[k];
      assert s1.properties[i].id == id;
      var j := FindIndex(s1.properties, PropertyKey, id);
      assert j.Some?;
      var old_ := s.properties[i];
      assert ApplyPatch(ApplyPatch(old_, patch), patch) == ApplyPatch(old_, patch);
      assert s1.properties[i := ApplyPatch(old_, patch)] == s1.properties;
    }
    if UpdateProperty(s, caller, id, PropertyPatch(None, None, None, None)).Success? {
      var i := FindIndex(s.properties, PropertyKey, id).value;
      assert s.properties[i := s.properties[i]] == s.properties;
    }
  }

  lemma UpdatePropertyPreservesValid(s: Store, caller: Option<AuthUser>, id: nat, patch: PropertyPatch)
    requires Valid(s)
    ensures UpdateProperty(s, caller, id, patch).Success? ==> Valid(UpdateProperty(s, caller, id, patch).value.0)
  {
    var r := UpdateProperty(s, caller, id, patch);
    if r.Success? {
      var i := FindIndex(s.properties, PropertyKey, id).value;
      var (s', p) := r.value;
      assert forall k :: 0 <= k < |s.properties| ==> PropertyKey(s'.properties[k]) == PropertyKey(s.properties[k]);
      assert forall q :: q in s'.properties ==> q in s.properties || q == p;
      assert s.properties[i] in s.properties;
    }
  }

  /** `deleteProperty`: the owner removes the property; the foreign keys'
      ON DELETE CASCADE removes its bookings and blocked dates with it. */
  function DeleteProperty(s: Store, caller: Option<AuthUser>, id: nat): (r: Result<(Store, bool), Error>)
    ensures !HasRole(caller, Propietario) ==> r.Failure? && r.error in {NotAuthenticated, NotAuthorized}
    ensures HasRole(caller, Propietario) && FindProperty(s.properties, id).None? ==> r == Failure(PropertyNotFound)
    ensures HasRole(caller, Propietario) && FindProperty(s.properties, id).Some?
            && FindProperty(s.properties, id).value.ownerId != caller.value.userId
            ==> r == Failure(NotOwnerToDelete)
    ensures r.Success? <==>
            && HasRole(caller, Propietario)
            && FindProperty(s.properties, id).Some?
            && FindProperty(s.properties, id).value.ownerId == caller.value.userId
    ensures r.Success? ==>
            var s' := r.value.0;
            && r.value.1
            && (forall p :: p in s'.properties <==> p in s.properties && p.id != id)
            && (forall b :: b in s'.bookings <==> b in s.bookings && b.propertyId != id)
            && (forall d :: d in s'.blocks <==> d in s.blocks && d.propertyId != id)
            && s'.nextPropertyId == s.nextPropertyId && s'.nextBookingId == s.nextBookingId
            && s'.nextBlockId == s.nextBlockId
  {
    var user :- RequireRole(caller, Propietario);
    match FindProperty(s.properties, id)
    case None => Failure(PropertyNotFound)
    case Some(property) =>
      if property.ownerId != user.userId then Failure(NotOwnerToDelete)
      else
        Success((s.(properties := DeletePropertyRows(s.properties, id),
                    bookings := DeleteBookingsOf(s.bookings, id),
                    blocks := DeleteBlocksOf(s.blocks, id)), true))
  }

  /** In a store with distinct keys, deletion removes exactly the one row
      found, keeping the others in order. */
  lemma DeletePropertyRemovesExactlyOne(s: Store, caller: Option<AuthUser>, id: nat)
    requires Valid(s)
    requires DeleteProperty(s, caller, id).Success?
    ensures var i := FindIndex(s.properties, PropertyKey, id).value;
            DeleteProperty(s, caller, id).value.0.properties == s.properties[..i] + s.properties[i + 1..]
  {
    var ps := s.properties;
    var i := FindIndex(ps, PropertyKey, id).value;
    forall k | 0 <= k < |ps| && k != i
      ensures PropertyIdOtherThan(id)(ps[k])
    {
      assert PropertyKey(ps[k]) != PropertyKey(ps[i]);
    }
    FilterRemovesOne(ps, i, PropertyIdOtherThan(id));
  }

  lemma DeletePropertyPreservesValid(s: Store, caller: Option<AuthUser>, id: nat)
    requires Valid(s)
    ensures DeleteProperty(s, caller, id).Success? ==> Valid(DeleteProperty(s, caller, id).value.0)
  {
    if DeleteProperty(s, caller, id).Success? {
      FilterKeepsDistinctKeys(s.properties, PropertyIdOtherThan(id), PropertyKey);
      FilterKeepsDistinctKeys(s.bookings, BookingOfOtherProperty(id), BookingKey);
      FilterKeepsDistinctKeys(s.blocks, BlockOfOtherProperty(id), BlockKey);
    }
  }

  /** Reading a property back by id after each write: the created property
      is found under its fresh id, an update is visible, a deleted id is gone. */
  lemma GetPropertyAfterWrites(s: Store, caller: Option<AuthUser>, id: nat, patch: PropertyPatch,
                               title: string, description: Option<string>, maxGuests: int, basePricePerNight: int)
    requires Valid(s)
    ensures var c := CreateProperty(s, caller, title, description, maxGuests, basePricePerNight);
            c.Success? ==> GetPropertyById(c.value.0, c.value.1.id) == Some(c.value.1)
    ensures var u := UpdateProperty(s, caller, id, patch);
            u.Success? ==> GetPropertyById(u.value.0, id) == Some(u.value.1)
    ensures var d := DeleteProperty(s, caller, id);
            d.Success? ==> GetPropertyById(d.value.0, id) == None
  {
    var c := CreateProperty(s, caller, title, description, maxGuests, basePricePerNight);
    if c.Success? {
      CreatePropertyPreservesValid(s, caller, title, description, maxGuests, basePricePerNight);
      assert c.value.1 in c.value.0.properties;
    }
    var u := UpdateProperty(s, caller, id, patch);
    if u.Success? {
      UpdatePropertyPreservesValid(s, caller, id, patch);
      var i := FindIndex(s.properties, PropertyKey, id).value;
      assert u.value.0.properties[i] == u.value.1;
    }
  }

  // ----- availability search -----

  /** A property can host the party over the range: it is large enough and no
      CONFIRMED booking and no block of it overlaps the range. */
  predicate Available(s: Store, p: Property, startDate: Day, endDate: Day, guests: int) {
    && p.maxGuests >= guests
    && !HasConfirmedOverlap(s.bookings, p.id, startDate, endDate, None)
    && !HasBlockOverlap(s.blocks, p.id, startDate, endDate)
  }

  /** Step 2 of the search: the ids, among `ids`, of properties with an
      overlapping CONFIRMED booking (one batched query, then a lookup table). */
  function BookedPropertyIds(bs: seq<Booking>, ids: set<nat>, startDate: Day, endDate: Day): (r: set<nat>)
    ensures forall pid :: pid in r <==> pid in ids && HasConfirmedOverlap(bs, pid, startDate, endDate, None)
  {
    var rows := Filter(bs, (b: Booking) =>
      b.propertyId in ids && b.status == Confirmed && RangesOverlap(b.startDate, b.endDate, startDate, endDate));
    var r := set b | b in rows :: b.propertyId;
    assert forall pid :: pid in ids && HasConfirmedOverlap(bs, pid, startDate, endDate, None) ==> pid in r by {
      forall pid | pid in ids && HasConfirmedOverlap(bs, pid, startDate, endDate, None)
        ensures pid in r
      {
        var k :| 0 <= k < |bs| && BookingConflicts(bs[k], pid, startDate, endDate, None);
        assert bs[k] in rows;
      }
    }
    assert forall pid :: pid in r ==> HasConfirmedOverlap(bs, pid, startDate, endDate, None) by {
      forall pid | pid in r
        ensures HasConfirmedOverlap(bs, pid, startDate, endDate, None)
      {
        var b :| b in rows && b.propertyId == pid;
        var k :| 0 <= k < |bs| && bs[k] == b;
        assert BookingConflicts(bs[k], pid, startDate, endDate, None);
      }
    }
    r
  }

  /** Step 3 of the search: the ids, among `ids`, of properties with an
      overlapping blocked range. */
  function BlockedPropertyIds(ds: seq<BlockedDate>, ids: set<nat>, startDate: Day, endDate: Day): (r: set<nat>)
    ensures forall pid :: pid in r <==> pid in ids && HasBlockOverlap(ds, pid, startDate, endDate)
  {
    var rows := Filter(ds, (d: BlockedDate) =>
      d.propertyId in ids && RangesOverlap(d.startDate, d.endDate, startDate, endDate));
    var r := set d | d in rows :: d.propertyId;
    assert forall pid :: pid in ids && HasBlockOverlap(ds, pid, startDate, endDate) ==> pid in r by {
      forall pid | pid in ids && HasBlockOverlap(ds, pid, startDate, endDate)
        ensures pid in r
      {
        var k :| 0 <= k < |ds| && BlockConflicts(ds[k], pid, startDate, endDate);
        assert ds[k] in rows;
      }
    }
    assert forall pid :: pid in r ==> HasBlockOverlap(ds, pid, startDate, endDate) by {
      forall pid | pid in r
        ensures HasBlockOverlap(ds, pid, startDate, endDate)
      {
        var d :| d in rows && d.propertyId == pid;
        var k :| 0 <= k < |ds| && ds[k] == d;
        assert BlockConflicts(ds[k], pid, startDate, endDate);
      }
    }
    r
  }

  /** `searchAvailableProperties`: the capacity query, the two batched
      overlap queries over the candidates, then a filter. Neither pagination
      nor a total price is applied by the service. */
  function SearchAvailableProperties(s: Store, startDate: Day, endDate: Day, guests: int)
    : (r: Result<seq<Property>, Error>)
    ensures r.Failure? <==> endDate <= startDate
    ensures r.Failure? ==> r.error == InvalidDateRange
    ensures r.Success? ==>
              forall p :: p in r.value <==> p in s.properties && Available(s, p, startDate, endDate, guests)
    ensures r.Success? ==> Subseq(r.value, s.properties)
    ensures r.Success? && (forall p :: p in s.properties ==> p.maxGuests < guests) ==> r.value == []
  {
    var days := DiffInDays(startDate, endDate);
    if days <= 0 then Failure(InvalidDateRange)
    else
      var candidates := Filter(s.properties, (p: Property) => p.maxGuests >= guests);
      FilterIsSubseq(s.properties, (p: Property) => p.maxGuests >= guests);
      if |candidates| == 0 then
        Success([])
      else
        var ids := set p | p in candidates :: p.id;
        var booked := BookedPropertyIds(s.bookings, ids, startDate, endDate);
        var blocked := BlockedPropertyIds(s.blocks, ids, startDate, endDate);
        var available := Filter(candidates, (p: Property) => p.id !in booked && p.id !in blocked);
        FilterIsSubseq(candidates, (p: Property) => p.id !in booked && p.id !in blocked);
        SubseqTrans(available, candidates, s.properties);
        assert forall p :: p in candidates ==> p.id in ids;
        Success(available)
  }

  /** P1 (four guests) has a CONFIRMED booking for 2024-02-01..02-05, P2 has
      nothing: a search for 2024-02-03..02-04 and two guests finds only P2. */
  lemma SearchExcludesConflictsScenario()
    ensures var p1 := Property(1, "P1", None, 5, 4, 10000);
            var p2 := Property(2, "P2", None, 5, 4, 10000);
            var a := Booking(1, 1, 9, DayNumber(2024, 2, 1), DayNumber(2024, 2, 5), 2, 40000, Confirmed);
            var s := Store([p1, p2], [a], [], 3, 2, 1);
            SearchAvailableProperties(s, DayNumber(2024, 2, 3), DayNumber(2024, 2, 4), 2) == Success([p2])
  {
    var p1 := Property(1, "P1", None, 5, 4, 10000);
    var p2 := Property(2, "P2", None, 5, 4, 10000);
    var a := Booking(1, 1, 9, DayNumber(2024, 2, 1), DayNumber(2024, 2, 5), 2, 40000, Confirmed);
    var s := Store([p1, p2], [a], [], 3, 2, 1);
    var r := SearchAvailableProperties(s, DayNumber(2024, 2, 3), DayNumber(2024, 2, 4), 2);
    assert BookingConflicts(s.bookings[0], 1, DayNumber(2024, 2, 3), DayNumber(2024, 2, 4), None);
    assert p1 !in r.value;
    assert p2 in r.value;
    var v := r.value;
    assert Subseq(v, [p1, p2]);
    assert v[0] != p1;
    assert [p1, p2][1..] == [p2];
    assert Subseq(v, [p2]);
    assert [p2][1..] == [];
    assert v[0] == p2 && Subseq(v[1..], []);
    assert |v| == 1;
    assert v == [p2];
    assert r == Success([p2]);
  }
}
