/** The records of the booking core (the Sequelize models under src/models) and the failures the
    services raise, as a closed tagged type instead of message strings. */
module Domain {
  import opened Dates
  import opened Wrappers

  /** 'PROPIETARIO' (owner) or 'VIAJERO' (traveller). */
  datatype Role = Propietario | Viajero

  /** The authenticated caller carried in the request context. */
  datatype AuthUser = AuthUser(userId: nat, role: Role)

  datatype BookingStatus = Pending | Confirmed | Cancelled

  /** Prices are in cents: the column is DECIMAL(10, 2). */
  datatype Property = Property(
    id: nat,
    title: string,
    description: Option<string>,
    ownerId: nat,
    maxGuests: int,
    basePricePerNight: int)

  datatype Booking = Booking(
    id: nat,
    propertyId: nat,
    userId: nat,
    startDate: Day,
    endDate: Day,
    guests: int,
    totalPrice: int,
    status: BookingStatus)

  datatype BlockedDate = BlockedDate(
    id: nat,
    propertyId: nat,
    startDate: Day,
    endDate: Day)

  datatype Error =
    | NotAuthenticated
    | NotAuthorized
    | InvalidDateRange
    | PropertyNotFound
    | CapacityExceeded
    | DatesTakenByBookings
    | DatesBlocked
    | BookingNotFound
    | NotOwnerOfBooking
    | ConfirmConflictsWithBooking
    | ConfirmConflictsWithBlock
    | InvalidStatusTransition
    | NotOwnerToBlock
    | BlockOverlapsBookings
    | BlockOverlapsBlocks
    | NotOwnerToModify
    | NotOwnerToDelete
    | InvalidPage
    | InvalidPageSize
    | PageSizeTooLarge
    | InvalidDateFormat(field: string)
    | FieldRequired(field: string)
    | NotPositiveInteger(field: string)
    | NotPositiveNumber(field: string)
    | InvalidRole
    | InvalidStatus

  /** The wire names of the enumerations. */
  function RoleName(r: Role): string {
    match r
    case Propietario => "PROPIETARIO"
    case Viajero => "VIAJERO"
  }

  function StatusName(s: BookingStatus): string {
    match s
    case Pending => "PENDING"
    case Confirmed => "CONFIRMED"
    case Cancelled => "CANCELLED"
  }
}
