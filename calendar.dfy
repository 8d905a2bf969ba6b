/** The records exchanged between the booking page and the calendar API
    (src/types/calendar.ts), plus the optional/fallible wrappers the
    TypeScript code expresses with `?`, `null` and exceptions.
    JavaScript numbers are modelled as unbounded integers. */
module Calendar {

  /** A value that may be absent (`undefined` or `null` in the source). */
  datatype Option<+T> = None | Some(value: T)

  /** The outcome of a computation that may throw. */
  datatype Result<+T, +E> = Success(value: T) | Failure(error: E)

  /** A bookable interval: `time` is "HH:MM", `date` is "YYYY-MM-DD",
      `start` and `end` are ISO-8601 instants, `duration` is in minutes. */
  datatype TimeSlot = TimeSlot(time: string, date: string, start: string, end: string, duration: int)

  /** One entry of `calendar_info.meeting_platforms`; `kind` is the JSON field `type`. */
  datatype MeetingPlatform = MeetingPlatform(kind: string, available: bool, link: Option<string>, value: Option<string>)

  datatype CalendarInfo = CalendarInfo(
    defaultDuration: int,
    meetingPlatforms: seq<MeetingPlatform>,
    timezone: string,
    bufferTime: int)

  datatype UserInfo = UserInfo(
    username: string,
    email: string,
    profilePic: Option<string>,
    userType: string,
    organisationName: Option<string>,
    organisationUrl: Option<string>,
    linkedinUrl: Option<string>,
    platforms: seq<string>)

  datatype AvailabilityData = AvailabilityData(
    availability: seq<TimeSlot>,
    calendarInfo: CalendarInfo,
    user: UserInfo,
    bufferTime: int,
    timezone: string)

  datatype AvailabilityResponse = AvailabilityResponse(success: bool, data: AvailabilityData, message: string)

  datatype Attendee = Attendee(name: string, email: string)

  datatype Recurrence = Recurrence(frequency: string, until: string)

  /** The outbound booking intent; the last five fields are optional in the source. */
  datatype BookingRequest = BookingRequest(
    title: string,
    date: string,
    startTime: string,
    duration: int,
    attendees: seq<Attendee>,
    platform: string,
    recurring: Option<Recurrence>,
    timezone: Option<string>,
    bufferBefore: Option<int>,
    bufferAfter: Option<int>,
    notes: Option<string>)

  /** A confirmed booking: every optional request field is resolved. */
  datatype Booking = Booking(
    bookingUid: string,
    title: string,
    date: string,
    startTime: string,
    duration: int,
    status: string,
    platform: string,
    meetingLink: string,
    attendees: seq<Attendee>,
    notes: string,
    bufferBefore: int,
    bufferAfter: int,
    createdAt: string,
    timezone: string)

  /** `data.bookings` of the wire format is flattened into `bookings`. */
  datatype BookingResponse = BookingResponse(success: bool, message: string, bookings: seq<Booking>, statusCode: int)

  /** Raw visitor input of the booking form. */
  datatype BookingFormInputs = BookingFormInputs(name: string, email: string, notes: string)
}
