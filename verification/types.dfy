/** The records the application stores and exchanges: businesses (users),
    their services, bookings and clients, the time slots offered to
    customers, and the uniform reply every call of the API returns. */
module Types {
  import opened Common

  /** Identifies a business; every service, booking and client is stored
      under the id of the business that owns it. */
  type UserId = string

  datatype User = User(
    id: UserId,
    email: string,
    businessName: string,
    fullName: string,
    googleCalendarConnected: bool,
    twilioTokenConnected: bool,
    twilioToken: Option<string>)

  datatype Service = Service(
    id: string,
    name: string,
    duration: int,
    price: real,
    enablePayment: bool)

  datatype Status = Pending | Confirmed | Cancelled

  datatype Booking = Booking(
    id: string,
    clientName: string,
    clientPhone: string,
    serviceId: string,
    serviceName: string,
    date: string,
    time: string,
    status: Status,
    userId: UserId)

  datatype Client = Client(
    id: string,
    name: string,
    phone: string,
    email: Option<string>,
    lastVisit: Option<string>,
    totalBookings: int,
    userId: UserId)

  datatype TimeSlot = TimeSlot(time: string, available: bool)

  /** The failures the API reports, one per distinct error message. */
  datatype ApiError =
    | UserNotFound
    | EmailInUse
    | InvalidTwilioToken
    | MissingBookingFields
    | ServiceNotFound

  /** The message the API sends with each failure. */
  function Message(e: ApiError): string {
    match e
    case UserNotFound => "Usuario no encontrado"
    case EmailInUse => "El email ya está en uso"
    case InvalidTwilioToken => "Token de Twilio inválido"
    case MissingBookingFields => "Faltan datos requeridos para la reserva"
    case ServiceNotFound => "Servicio no encontrado"
  }

  /** `{ success: true, data }` or `{ success: false, error }`. */
  datatype Reply<T> = Success(data: T) | Failure(error: ApiError)

  /** A string the source tests with `!x`: absent or empty. */
  predicate Falsy(s: Option<string>) {
    s.None? || s.value == ""
  }
}
