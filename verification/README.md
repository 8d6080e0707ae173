# Availability and conflict core of the mi-renta booking service

This project models, in Dafny, the core of a short-term-rental booking backend:

- owners (role PROPIETARIO) list properties and block date ranges on them;
- travellers (role VIAJERO) request bookings;
- owners confirm or cancel those bookings;
- anyone searches for properties that are free over a date range for a given party size.

The database is replaced by an immutable in-memory `Store`. It holds one sequence each of properties, bookings and blocked dates, plus an auto-increment counter per table. Every service method is a pure function. It takes the store, the authenticated caller (`Option<AuthUser>`, `None` for an anonymous request) and the method's arguments. It returns either a tagged `Error` or the new store together with the method's result. A failed call returns no store, so a failing call never changes the data.

Modules, following the repository's layout:

- `Wrappers`: `Option` and `Result`, with `:-` propagation.
- `Seqs`: `Filter` (the `findAll` queries and `Array.prototype.filter`), `FindIndex` (`findByPk`), subsequences, key uniqueness.
- `Dates` (`src/common/date-utils.ts`): dates are integer day ordinals (days since 1970-01-01 UTC). `RangesOverlap` and `DiffInDays` are written over the millisecond timestamps the source compares: `day * 86400000`, with `Math.round` as `floor(x + 1/2)`. Their contracts reduce them to day arithmetic.
- `Domain` (`src/models/*.ts`): the records, the role and status enumerations, and the error kinds.
- `Store`: the tables and the shared overlap queries. These are the `startDate <= end && endDate >= start` where-clauses, expressed through the one `RangesOverlap` predicate. The module also holds the store invariant `Valid`:
  - ids are unique and below their counter;
  - confirmed bookings of one property are pairwise disjoint;
  - blocks of one property are pairwise disjoint;
  - no block overlaps a confirmed booking of its property.
- `Validators` (`src/common/validators.ts`): the argument checks, over a model `Value` of JavaScript's `unknown`.
- `AuthGuards` (`src/common/auth-guards.ts`).
- `BookingService`, `BlockedDateService` and `PropertyService` (`src/modules/*/*.service.ts`).

Prices are whole cents. `basePricePerNight` and `totalPrice` are DECIMAL(10,2) columns.

## Model

| member | source | states |
|---|---|---|
| Dates.RangesOverlap | src/common/date-utils.ts:2-14 | Two closed ranges overlap iff each starts no later than the other ends. |
| Dates.DiffInDays | src/common/date-utils.ts:16-21 | The rounded millisecond difference is exactly the number of days from start to end (`start + r == end`). |
| Dates.DiffPositiveIffBefore | src/common/date-utils.ts:16-21 | The day difference is positive iff start is strictly before end; every service's range check relies on this. |
| Dates.DiffInDaysAntisymmetric | src/common/date-utils.ts:16-21 | The difference of a date with itself is 0, and swapping the arguments negates it. |
| Dates.OverlapSymmetric | src/common/date-utils.ts:13 | Swapping the two ranges never changes the overlap result. |
| Dates.TouchingRangesOverlap | src/common/date-utils.ts:13 | A range ending on the day another starts overlaps it (closed intervals). |
| Dates.NonEmptyRangeOverlapsItself | src/common/date-utils.ts:13 | Every range with start <= end overlaps itself. |
| Dates.DisjointIffSeparated | src/common/date-utils.ts:13 | Two ranges are disjoint iff one ends strictly before the other starts. |
| Dates.NextDayInMonth | src/common/date-utils.ts:8-11 | The civil-date-to-day-number conversion used for `YYYY-MM-DD` strings advances by one per calendar day within a month. |
| Dates.DateExamples | src/common/__tests__/date-utils.test.ts:4-16 | 01-01..01-05 overlaps 01-04..01-10, not 01-06..01-10, and touches 01-05..01-10; 01-01 to 01-02 is 1 day, to 01-05 is 4. |
| Seqs.Filter | src/modules/property/property.service.ts:159-161 | The result holds exactly the input's elements that pass the test, and only those. |
| Seqs.FilterIsSubseq | src/modules/property/property.service.ts:159-161 | Filtering keeps the relative order of the kept elements. |
| Seqs.FilterMultiplicity | src/modules/property/property.service.ts:14-17 | A kept element appears as often as in the input; a rejected one does not appear. |
| Seqs.FilterKeepsDistinctKeys | migrations/20231209120100-create-properties.js:4-9 | Deleting rows keeps primary keys distinct. |
| Seqs.FilterRemovesOne | src/modules/property/property.service.ts:99 | A filter that rejects exactly one position removes that row and keeps the others in order. |
| Seqs.FindIndex | src/modules/booking/booking.service.ts:81-87 | `findByPk`: the first position whose primary key is the id, or none iff no row has it. |
| Store.FindProperty | src/modules/booking/booking.service.ts:21-24 | The row found carries the id and is in the table; none is found iff no row has the id. |
| Store.OverlappingConfirmed | src/modules/booking/booking.service.ts:30-37 | Exactly the CONFIRMED bookings of the property that overlap the range, optionally excluding one booking id. |
| Store.OverlappingBlocks | src/modules/booking/booking.service.ts:43-49 | Exactly the blocked ranges of the property that overlap the range. |
| Store.HasConfirmedOverlap | src/modules/booking/booking.service.ts:39-41 | The query result is non-empty iff some CONFIRMED booking of the property overlaps. |
| Store.HasBlockOverlap | src/modules/booking/booking.service.ts:51-53 | The query result is non-empty iff some block of the property overlaps. |
| Store.DeletePropertyRows | src/modules/property/property.service.ts:99 | After `destroy`, the remaining properties are exactly those with another id. |
| Store.DeleteBookingsOf | migrations/20231209120200-create-bookings.js:10-18 | The cascade keeps exactly the bookings of other properties. |
| Store.DeleteBlocksOf | migrations/20231209120300-create-blocked-dates.js:10-18 | The cascade keeps exactly the blocks of other properties. |
| Store.EmptyStoreValid | migrations/20231209120200-create-bookings.js:3-9 | A fresh database, with empty tables and every auto-increment counter at 1, satisfies every store invariant. |
| Store.FoundBookingIsUnique | src/modules/booking/booking.service.ts:81-83 | With unique ids, the booking `findByPk` finds is the only one carrying the id. |
| AuthGuards.RequireAuth | src/common/auth-guards.ts:4-9 | Fails, not authenticated, iff there is no user; otherwise returns that user. |
| AuthGuards.RequireRole | src/common/auth-guards.ts:11-17 | Not authenticated without a user, not authorized on another role, succeeds iff the role matches, and returns the user unchanged. |
| AuthGuards.RolesExclusive | src/common/auth-guards.ts:13-15 | No caller passes both the owner guard and the traveller guard. |
| AuthGuards.AuthGuardExamples | src/common/__tests__/auth-guards.test.ts:4-11 | No user is rejected, a traveller is rejected where an owner is needed, and a matching user is returned. |
| Validators.NormalizePagination | src/common/validators.ts:7-34 | Arguments fall back to defaults, then to 1 and 10. An invalid page fails with the page error first. Then an invalid page size fails with the page-size error. Then a page size above 100 fails with the too-large error. Succeeds iff none applies, and then limit == pageSize and offset == (page-1)*pageSize >= 0. |
| Validators.PaginationExamples | src/common/validators.ts:7-34 | No arguments give page 1, size 10, offset 0; page 0, page 1.5 and size 101 are rejected; page 3 gives offset 20. |
| Validators.MatchesWholePositionwise | src/common/validators.ts:37 | An anchored fixed-width pattern matches iff the lengths agree and each character fits its class. |
| Validators.RequireDateString | src/common/validators.ts:36-41 | Accepts iff the string has length 10 with digits everywhere except '-' at positions 4 and 7; the error names the field. |
| Validators.DateStringExamples | src/common/__tests__/validators.test.ts:26-29 | `2024-01-01` is accepted and `01-01-2024` rejected. |
| Validators.Trim | src/common/validators.ts:44 | The trimmed string is an infix of the input with no trimmable character at either end. |
| Validators.TrimIdempotent | src/common/validators.ts:47 | Trimming twice equals trimming once. |
| Validators.TrimEmptyIffAllTrimmable | src/common/validators.ts:44 | A string trims to empty iff every character is whitespace. |
| Validators.RequireNonEmptyString | src/common/validators.ts:43-48 | Fails iff the value is not a string or is all whitespace; otherwise returns the trimmed string. |
| Validators.PositiveIntegerIsWholeNumber | src/common/validators.ts:3-5 | `isPositiveInteger` holds exactly for the numbers 1, 2, 3, ...: a value passes iff it is the number n for some integer n >= 1. |
| Validators.RequirePositiveInt | src/common/validators.ts:59-64 | Succeeds iff the value is an integral number > 0 and returns it unchanged. |
| Validators.RequirePositiveNumber | src/common/validators.ts:74-79 | Succeeds iff the value is a number > 0, including +Infinity but not NaN, and returns it unchanged. |
| Validators.RequireRoleValue | src/common/validators.ts:81-86 | Only the two role names are accepted, each as its own role. |
| Validators.RoleValueRoundTrip | src/common/validators.ts:81-86 | A role's name parses back to that role, and a value is accepted iff it is some role's name. |
| Validators.RequireBookingStatus | src/common/validators.ts:88-95 | Only the three status names are accepted, each as its own status. |
| Validators.BookingStatusRoundTrip | src/common/validators.ts:88-95 | A status's name parses back to that status, and a value is accepted iff it is some status's name. |
| BookingService.Nights | src/modules/booking/booking.service.ts:55-58 | At least one night: exactly the day count when that is positive, and one night when it is zero or negative. |
| BookingService.NightsOfAcceptedRange | src/modules/booking/booking.service.ts:16-19 | On every range the services accept, the clamp never applies: the nights charged are the days from start to end. |
| BookingService.CreateBooking | src/modules/booking/booking.service.ts:10-73 | Checks in source order (role, range, property, capacity, confirmed overlap, block overlap), each with its error. Succeeds iff all pass. Appends one PENDING booking with the caller, dates, guests, the next id and price = nightly price × nights; nothing else changes. |
| BookingService.CreateBookingEarlyChecksIgnoreStore | src/modules/booking/booking.service.ts:14-19 | The role and range rejections happen before any store read: the outcome is the same on every store. |
| BookingService.UnconfirmedBookingsNeverBlock | src/modules/booking/booking.service.ts:30-41 | Adding a PENDING or CANCELLED booking never changes whether a booking request succeeds. |
| BookingService.CreateBookingPreservesValid | src/modules/booking/booking.service.ts:62-70 | A successful booking request keeps every store invariant. |
| BookingService.UpdateBookingStatus | src/modules/booking/booking.service.ts:75-127 | Owner guard, then not found, then not the property's owner. Confirming rechecks other CONFIRMED bookings (never itself) and blocks. On success only that booking's status changes, to the requested value. |
| BookingService.SetStatusPreservesValid | src/modules/booking/booking.service.ts:95-124 | Overwriting one status keeps the invariants whenever confirming is guarded by the two overlap checks. |
| BookingService.UpdateBookingStatusPreservesValid | src/modules/booking/booking.service.ts:95-124 | A successful status change keeps every store invariant, in particular no two CONFIRMED bookings of a property overlap. |
| BookingService.SameStatusUpdateIsNoOp | src/modules/booking/booking.service.ts:123-124 | Setting a booking to the status it already has, when allowed, leaves the store unchanged. |
| BookingService.UpdateBookingStatusGuarded | src/modules/booking/__tests__/booking.service.test.ts:154-171 | Same guards and errors as the unguarded update (not authenticated or authorized, booking not found, not the owner). For the owner: the current status is a no-op returning the store unchanged; a step outside PENDING to CONFIRMED/CANCELLED or CONFIRMED to CANCELLED fails with an invalid-transition error. An allowed step succeeds iff it is not a confirmation or no other CONFIRMED booking and no block overlaps, failing otherwise with the matching conflict error. On success exactly that booking's status changes. |
| BookingService.UpdateBookingStatusGuardedPreservesValid | src/modules/booking/booking.service.ts:95-124 | The guarded variant keeps every store invariant. |
| BookingService.GuardedCancelledIsTerminal | src/modules/booking/__tests__/booking.service.test.ts:154-171 | Under the guard a CANCELLED booking can never move to another status. |
| BookingService.CancelledBookingCanBeReconfirmed | src/modules/booking/booking.service.ts:95-124 | The code as written confirms a CANCELLED booking that the test expects to be rejected; the guarded variant rejects it. |
| BookingService.CreateBookingScenarios | src/modules/booking/__tests__/booking.service.test.ts:65-79 | 100.00 per night for 01-01..01-03 costs 200.00; a missing property, too many guests and an empty range are rejected. |
| BookingService.ConfirmBlockedByOverlapScenario | src/modules/booking/__tests__/booking.service.test.ts:198-216 | Confirming a booking that overlaps another CONFIRMED one fails with the booking conflict. |
| BlockedDateService.CreateBlockedDate | src/modules/blocked-date/blocked-date.service.ts:10-65 | Checks in source order (owner role, range, property, ownership, confirmed overlap, block overlap), each with its error. Succeeds iff all pass. Appends one block with the property and dates; bookings and properties are unchanged. |
| BlockedDateService.CreateBlockedDatePreservesValid | src/modules/blocked-date/blocked-date.service.ts:29-64 | A new block keeps blocks pairwise disjoint and clear of confirmed bookings. |
| BlockedDateService.CreateBlockedDateScenarios | src/modules/blocked-date/__tests__/blocked-date.service.test.ts:38-126 | An empty range, another owner's property, a confirmed overlap and a block overlap are rejected; a free range is blocked. |
| PropertyService.InsertById | src/modules/property/property.service.ts:16 | Inserting into an id-ordered list keeps it ordered and adds exactly that element. |
| PropertyService.SortById | src/modules/property/property.service.ts:16 | `ORDER BY id ASC`: the result is ordered by id and is a permutation of the input. |
| PropertyService.GetMyProperties | src/modules/property/property.service.ts:11-18 | Owners only. Returns exactly the caller's properties, each as often as stored, sorted by id. |
| PropertyService.GetPropertyById | src/modules/property/property.service.ts:20-22 | The result carries the id and is stored; none iff no property has the id; with unique ids it is the one property with that id. |
| PropertyService.StoredDescription | src/modules/property/property.service.ts:37 | `description || null`: an absent or empty description is stored as null, any other as given. |
| PropertyService.CreateProperty | src/modules/property/property.service.ts:24-44 | Owners only. Appends one property under the next id and the caller as owner; nothing else changes. |
| PropertyService.CreatePropertyPreservesValid | src/modules/property/property.service.ts:35-41 | Creating a property keeps every store invariant. |
| PropertyService.UpdateProperty | src/modules/property/property.service.ts:46-84 | Owner guard, not found, not owner. On success only that row changes: each supplied field takes its new value, each omitted one, the id and the owner stay. |
| PropertyService.UpdatePropertyIdempotent | src/modules/property/property.service.ts:68-81 | An empty patch changes nothing, and repeating a patch has no further effect. |
| PropertyService.UpdatePropertyPreservesValid | src/modules/property/property.service.ts:68-81 | Updating a property keeps every store invariant. |
| PropertyService.DeleteProperty | src/modules/property/property.service.ts:86-102 | Owner guard, not found, not owner. On success it returns true and removes exactly the rows of that property and its bookings and blocks. |
| PropertyService.DeletePropertyRemovesExactlyOne | src/modules/property/property.service.ts:99 | With unique ids, deletion removes exactly the one row found and keeps the others in order. |
| PropertyService.DeletePropertyPreservesValid | src/modules/property/property.service.ts:86-102 | Deleting a property keeps every store invariant. |
| PropertyService.GetPropertyAfterWrites | src/modules/property/property.service.ts:20-22 | Reading back by id finds a created property under its new id and an updated property as updated, and finds nothing after deletion. |
| PropertyService.BookedPropertyIds | src/modules/property/property.service.ts:129-142 | The candidate ids with an overlapping CONFIRMED booking, exactly. |
| PropertyService.BlockedPropertyIds | src/modules/property/property.service.ts:144-156 | The candidate ids with an overlapping block, exactly. |
| PropertyService.SearchAvailableProperties | src/modules/property/property.service.ts:104-164 | Fails iff the range is empty. A property is returned iff it is stored, fits the party and has neither an overlapping CONFIRMED booking nor an overlapping block. The result keeps store order, and it is empty when no property fits the party. |
| PropertyService.SearchExcludesConflictsScenario | src/modules/property/property.service.ts:115-161 | With P1 confirmed for 02-01..02-05 and P2 free, a search for 02-03..02-04 returns exactly P2. |

## Left out

- Transport and wiring are not modelled: GraphQL resolvers, dependency injection, the server, and `parseInt` on ids.
- The Sequelize models and database setup are not modelled; `findAll`/`findByPk`/`create`/`save`/`destroy` are pure operations on the store.
- Authentication and JWT signing (bcrypt, jsonwebtoken) are foreign code. The caller arrives as an `Option<AuthUser>`.
- DTO validation with class-validator decorators, the logger and the environment config are not modelled: they are reflection, console and environment access.
- Error messages are not modelled: each error is a constructor of `Domain.Error`, not a string.
- `requireEmail` and `requirePositiveIntFromString` are not modelled: they depend on the regular-expression engine and on `Number()` string parsing.
- Date strings are not modelled. Dates are day ordinals, as `new Date('YYYY-MM-DD')` parses them to UTC midnight. Invalid dates (NaN timestamps) and the string comparison the database applies to DATEONLY columns are outside the model.
- Concurrency is not modelled: each service call is atomic, so the race between two confirmations checked at the same time is not represented.
- BookingService.CreateBooking: the price is an exact product of whole cents. The source multiplies IEEE doubles (`Number(basePricePerNight) * nights`, so `Number('100.10') * 3` is `300.29999999999995`) and returns that value before the DECIMAL(10,2) column rounds it; this floating-point rounding of `totalPrice` is not modelled.
- PropertyService.GetMyProperties: takes no pagination, as the code does; the test at src/modules/property/__tests__/property.service.test.ts:25-43 expects a limit and offset, which the service does not accept.
- PropertyService.SearchAvailableProperties: returns no `totalPrice`, as the code does; the test at src/modules/property/__tests__/property.service.test.ts:45-69 expects one.
- PropertyService.UpdateProperty: an explicit `null` description in the patch is not modelled (a patch field is either supplied or omitted).
- Validators.NormalizePagination: states `offset == (page-1)*pageSize` and `offset >= 0`, which implies but does not separately state that the offset is a multiple of the limit.
- BookingService.UpdateBookingStatus: follows the code, which has no transition guard; the test's expectation is the separate guarded variant (see Findings).
- Users are not modelled as a table. The foreign keys to users (owner, traveller) are plain numbers, and the user-deletion cascade is not represented.

## Findings

| source | as written | input that shows it | evidently intended | confidence | as-written member | corrected member |
|---|---|---|---|---|---|---|
| src/modules/booking/booking.service.ts:95-124 | Any status may be written over any other; only confirming is checked, and only for overlaps. | The owner sets a CANCELLED booking for 2024-01-01..01-05, with no other bookings, to CONFIRMED. It succeeds. | The test at src/modules/booking/__tests__/booking.service.test.ts:154-171 expects the move to be rejected: PENDING to CONFIRMED or CANCELLED, CONFIRMED to CANCELLED, nothing out of CANCELLED. | medium, not executed | BookingService.CancelledBookingCanBeReconfirmed | BookingService.UpdateBookingStatusGuarded |
