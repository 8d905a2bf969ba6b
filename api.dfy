/** The calendar API client of src/lib/api.ts. `fetchAvailability` and
    `bookTimeSlot` are modelled as functions of an abstract HTTP response;
    the two mock builders as a function (the booking echo) and as a method
    with nested loops (the slot generator) proved against a function.
    Randomness and the clock are parameters:
    - `uidSuffix`: the text `Math.random().toString(36).substring(2, 15)`;
    - `createdAt`: `new Date().toISOString()`;
    - `toIso(h, m)`: the ISO instant of local time h:m on the local day that
      holds UTC midnight of `date` (`new Date("YYYY-MM-DD")` reads the date
      as UTC, so west of UTC that day is the one before `date`); minutes past
      59 roll over, as `setMinutes` does;
    - `keep(i)`: whether the i-th `Math.random()` call of the filter exceeds 0.3. */
module Api {
  import opened Calendar
  import Clock

  const DefaultTimezone := "America/New_York"
  const ZoomMeetingLink := "https://zoom.us/j/generated_meeting_id"
  const GoogleMeetLink := "https://meet.google.com/generated_meeting_id"
  const BookedMessage := "Meeting booked successfully."
  const FetchedMessage := "Availability fetched successfully."

  // ---------------------------------------------------------------------
  // getMockBookingResponse

  /** An optional value JavaScript treats as false: absent, or the type's `zero` ("" or 0). */
  predicate IsFalsy<T(==)>(v: Option<T>, zero: T) {
    v.None? || v.value == zero
  }

  /** `v || fallback` for an optional string: "" and absence are falsy. */
  function StringOr(v: Option<string>, fallback: string): string {
    if v.Some? && v.value != "" then v.value else fallback
  }

  /** `v || fallback` for an optional number: 0 and absence are falsy. */
  function NumberOr(v: Option<int>, fallback: int): int {
    if v.Some? && v.value != 0 then v.value else fallback
  }

  /** The single booking the mock response holds. */
  function MockBooking(request: BookingRequest, uidSuffix: string, createdAt: string): (b: Booking)
    ensures "booking_" <= b.bookingUid && b.status == "confirmed" && b.createdAt == createdAt
    ensures b.title == request.title && b.date == request.date && b.startTime == request.startTime
    ensures b.duration == request.duration && b.platform == request.platform && b.attendees == request.attendees
    ensures b.meetingLink == ZoomMeetingLink <==> request.platform == "zoom"
    ensures b.meetingLink == GoogleMeetLink <==> request.platform != "zoom"
    ensures b.notes == "" <==> IsFalsy(request.notes, "")
    ensures b.notes != "" ==> request.notes == Some(b.notes)
    ensures b.timezone != "" && (b.timezone == DefaultTimezone || request.timezone == Some(b.timezone))
    ensures IsFalsy(request.timezone, "") ==> b.timezone == DefaultTimezone
    ensures !IsFalsy(request.timezone, "") ==> b.timezone == request.timezone.value
    ensures request.bufferBefore == Some(b.bufferBefore) || (b.bufferBefore == 0 && IsFalsy(request.bufferBefore, 0))
    ensures request.bufferAfter == Some(b.bufferAfter) || (b.bufferAfter == 0 && IsFalsy(request.bufferAfter, 0))
  {
    Booking(
      bookingUid := "booking_" + uidSuffix,
      title := request.title,
      date := request.date,
      startTime := request.startTime,
      duration := request.duration,
      status := "confirmed",
      platform := request.platform,
      meetingLink := if request.platform == "zoom" then ZoomMeetingLink else GoogleMeetLink,
      attendees := request.attendees,
      notes := StringOr(request.notes, ""),
      bufferBefore := NumberOr(request.bufferBefore, 0),
      bufferAfter := NumberOr(request.bufferAfter, 0),
      createdAt := createdAt,
      timezone := StringOr(request.timezone, DefaultTimezone))
  }

  /** getMockBookingResponse: a successful 201 response with one confirmed booking. */
  function MockBookingResponse(request: BookingRequest, uidSuffix: string, createdAt: string): (r: BookingResponse)
    ensures r.success && r.statusCode == 201 && r.message == BookedMessage
    ensures |r.bookings| == 1 && r.bookings[0] == MockBooking(request, uidSuffix, createdAt)
  {
    BookingResponse(true, BookedMessage, [MockBooking(request, uidSuffix, createdAt)], 201)
  }

  /** A request that says exactly what `b` says, with every optional field present. */
  function RequestOf(b: Booking): BookingRequest {
    BookingRequest(b.title, b.date, b.startTime, b.duration, b.attendees, b.platform,
      None, Some(b.timezone), Some(b.bufferBefore), Some(b.bufferAfter), Some(b.notes))
  }

  /** Two requests echo to the same booking exactly when they agree on every
      copied field and on every optional field once `||` has resolved it;
      `recurring` is the one field the echo drops. */
  lemma MockBookingDeterminedBy(r1: BookingRequest, r2: BookingRequest, uidSuffix: string, createdAt: string)
    ensures MockBooking(r1, uidSuffix, createdAt) == MockBooking(r2, uidSuffix, createdAt)
        <==> (r1.title == r2.title && r1.date == r2.date && r1.startTime == r2.startTime
              && r1.duration == r2.duration && r1.attendees == r2.attendees && r1.platform == r2.platform
              && StringOr(r1.notes, "") == StringOr(r2.notes, "")
              && NumberOr(r1.bufferBefore, 0) == NumberOr(r2.bufferBefore, 0)
              && NumberOr(r1.bufferAfter, 0) == NumberOr(r2.bufferAfter, 0)
              && StringOr(r1.timezone, DefaultTimezone) == StringOr(r2.timezone, DefaultTimezone))
  {
  }

  /** Echoing the request a booking describes gives that booking back:
      the defaults the echo fills in are fixed points of the echo. */
  lemma MockBookingRoundTrip(request: BookingRequest, uidSuffix: string, createdAt: string)
    ensures var b := MockBooking(request, uidSuffix, createdAt);
      MockBooking(RequestOf(b), uidSuffix, createdAt) == b
  {
  }

  // ---------------------------------------------------------------------
  // bookTimeSlot

  /** What a call of the API client may throw. */
  datatype FetchError = NetworkFailure | ParseFailure | RequestFailed(message: string)

  /** bookTimeSlot: the network path is commented out, so the call never
      reaches the server and never throws; it resolves to the mock echo. */
  function BookTimeSlot(username: string, request: BookingRequest, uidSuffix: string, createdAt: string)
    : (r: Result<BookingResponse, FetchError>)
    ensures r.Success? && r.value.success && r.value.statusCode == 201
    ensures r.value.bookings == [MockBooking(request, uidSuffix, createdAt)]
  {
    Success(MockBookingResponse(request, uidSuffix, createdAt))
  }

  // ---------------------------------------------------------------------
  // getMockAvailabilityData

  /** The slot the generator builds for `hour` and `minutes` on `date`. */
  function MockSlot(date: string, toIso: (int, int) -> string, hour: nat, minutes: nat): TimeSlot {
    TimeSlot(
      Clock.PadStart2(hour) + ":" + Clock.PadStart2(minutes),
      date,
      toIso(hour, minutes),
      toIso(hour, minutes + 30),
      30)
  }

  /** The i-th generated slot: hours 9 to 16, each on the hour then at half past. */
  function SlotAt(date: string, toIso: (int, int) -> string, i: nat): TimeSlot {
    MockSlot(date, toIso, 9 + i / 2, i % 2 * 30)
  }

  /** The generator's visiting order: the hours from 9 up to, not including,
      `hour`, each on the hour and then at half past, built by `make`. */
  function HalfHours<T>(make: (nat, nat) -> T, hour: nat): seq<T> {
    if hour <= 9 then [] else HalfHours(make, hour - 1) + [make(hour - 1, 0), make(hour - 1, 30)]
  }

  /** Each hour from 9 up to `hour` contributes two entries. */
  lemma {:induction false} HalfHoursLength<T>(make: (nat, nat) -> T, hour: nat)
    requires 9 <= hour
    ensures |HalfHours(make, hour)| == 2 * (hour - 9)
  {
    if hour > 9 {
      HalfHoursLength(make, hour - 1);
    }
  }

  /** Entry i is built for hour 9 + i / 2 at minute 0 or 30 as i is even or odd. */
  lemma {:induction false} HalfHoursAt<T>(make: (nat, nat) -> T, hour: nat, i: nat)
    requires 9 <= hour && i < 2 * (hour - 9)
    ensures |HalfHours(make, hour)| == 2 * (hour - 9) && HalfHours(make, hour)[i] == make(9 + i / 2, i % 2 * 30)
  {
    var before := HalfHours(make, hour - 1);
    HalfHoursLength(make, hour - 1);
    if i < |before| {
      HalfHoursAt(make, hour - 1, i);
      assert HalfHours(make, hour)[i] == before[i];
    } else if i == |before| {
      assert 9 + i / 2 == hour - 1 && i % 2 == 0;
    } else {
      assert 9 + i / 2 == hour - 1 && i % 2 == 1;
    }
  }

  /** The generator's slot builder for one date. */
  function SlotMaker(date: string, toIso: (int, int) -> string): (nat, nat) -> TimeSlot {
    (hour: nat, minutes: nat) => MockSlot(date, toIso, hour, minutes)
  }

  /** Every slot the generator builds before the random filter. */
  function MockSlots(date: string, toIso: (int, int) -> string): seq<TimeSlot> {
    HalfHours(SlotMaker(date, toIso), 17)
  }

  /** The i-th generated slot is SlotAt(i), and there are sixteen. */
  lemma MockSlotAt(date: string, toIso: (int, int) -> string, i: nat)
    requires i < 16
    ensures |MockSlots(date, toIso)| == 16 && MockSlots(date, toIso)[i] == SlotAt(date, toIso, i)
  {
    HalfHoursLength(SlotMaker(date, toIso), 17);
    HalfHoursAt(SlotMaker(date, toIso), 17, i);
  }

  /** The nested loops of getMockAvailabilityData, pushing onto `timeSlots`. */
  method GenerateSlots(date: string, toIso: (int, int) -> string) returns (timeSlots: seq<TimeSlot>)
    ensures timeSlots == MockSlots(date, toIso)
  {
    ghost var make := SlotMaker(date, toIso);
    timeSlots := [];
    for hour := 9 to 17
      invariant timeSlots == HalfHours(make, hour)
    {
      var marks := [0, 30];
      for k := 0 to |marks|
        invariant timeSlots == HalfHours(make, hour) + [make(hour, 0), make(hour, 30)][..k]
      {
        var minutes := marks[k];
        var time := Clock.PadStart2(hour) + ":" + Clock.PadStart2(minutes);
        var slot := TimeSlot(time, date, toIso(hour, minutes), toIso(hour, minutes + 30), 30);
        assert slot == make(hour, minutes);
        assert [make(hour, 0), make(hour, 30)][..k + 1] == [make(hour, 0), make(hour, 30)][..k] + [slot];
        timeSlots := timeSlots + [slot];
      }
    }
  }

  /** The minutes after midnight a "HH:MM" slot time denotes. */
  function MinutesOf(time: string): Option<int> {
    match Clock.ParseTime(time)
    case Some((h, m)) => Some(h * 60 + m)
    case None => None
  }

  /** Both times parse and the first is strictly earlier. */
  predicate TimeBefore(t1: string, t2: string) {
    MinutesOf(t1).Some? && MinutesOf(t2).Some? && MinutesOf(t1).value < MinutesOf(t2).value
  }

  /** The slot built for hour h and minute m: a zero-padded "HH:MM" that
      parses back to h and m, 30 minutes long on the requested date, ending
      at the instant 30 minutes after its start. */
  lemma MockSlotShape(date: string, toIso: (int, int) -> string, h: nat, m: nat)
    requires h < 100 && m < 100
    ensures var s := MockSlot(date, toIso, h, m);
      var t := s.time;
      |t| == 5 && t[2] == ':' && Clock.AllDigits(t[..2]) && Clock.AllDigits(t[3..])
      && Clock.ParseTime(t) == Some((h, m)) && MinutesOf(t) == Some(h * 60 + m)
      && s.date == date && s.duration == 30
      && s.start == toIso(h, m) && s.end == toIso(h, m + 30)
  {
    PaddedTimeShape(MockSlot(date, toIso, h, m).time, h, m);
  }

  /** The i-th generated slot is a zero-padded "HH:MM" naming the hour and
      minute it starts at, 540 + 30 * i minutes after midnight, lasts 30
      minutes on the requested date, and ends 30 minutes after its start. */
  lemma SlotAtShape(date: string, toIso: (int, int) -> string, i: nat)
    requires i < 16
    ensures var s, h, m := SlotAt(date, toIso, i), 9 + i / 2, i % 2 * 30;
      var t := s.time;
      |t| == 5 && t[2] == ':' && Clock.AllDigits(t[..2]) && Clock.AllDigits(t[3..])
      && Clock.ParseTime(t) == Some((h, m)) && MinutesOf(t) == Some(540 + 30 * i)
      && s.date == date && s.duration == 30
      && s.start == toIso(h, m) && s.end == toIso(h, m + 30)
  {
    var h, m := 9 + i / 2, i % 2 * 30;
    SlotMinute(i);
    assert SlotAt(date, toIso, i) == MockSlot(date, toIso, h, m);
    MockSlotShape(date, toIso, h, m);
  }

  /** A zero-padded "HH:MM" has five characters, a ':' in the middle, and
      parses back to its hour and minute. */
  lemma PaddedTimeShape(t: string, h: nat, m: nat)
    requires h < 100 && m < 100 && t == Clock.PadStart2(h) + ":" + Clock.PadStart2(m)
    ensures |t| == 5 && t[2] == ':' && Clock.AllDigits(t[..2]) && Clock.AllDigits(t[3..])
    ensures Clock.ParseTime(t) == Some((h, m)) && MinutesOf(t) == Some(h * 60 + m)
  {
    Clock.PadStart2TwoDigits(h);
    Clock.PadStart2TwoDigits(m);
    Clock.ParseTimePadded(h, m);
    assert t[..2] == Clock.PadStart2(h) && t[3..] == Clock.PadStart2(m);
  }

  /** Index i stands for the minute 540 + 30 * i after midnight. */
  lemma SlotMinute(i: nat)
    ensures (9 + i / 2) * 60 + i % 2 * 30 == 540 + 30 * i
  {
  }

  /** The generated slots: sixteen of them, from "09:00" to "16:30", each
      shaped as SlotAtShape says, and strictly increasing in time. */
  lemma MockSlotsShape(date: string, toIso: (int, int) -> string)
    ensures var s := MockSlots(date, toIso);
      |s| == 16 && s[0].time == "09:00" && s[15].time == "16:30"
      && (forall i :: 0 <= i < 16 ==> s[i] == SlotAt(date, toIso, i))
      && (forall i, j :: 0 <= i < j < 16 ==> TimeBefore(s[i].time, s[j].time))
  {
    var s := MockSlots(date, toIso);
    HalfHoursLength(SlotMaker(date, toIso), 17);
    forall i | 0 <= i < 16
      ensures s[i] == SlotAt(date, toIso, i)
    {
      MockSlotAt(date, toIso, i);
    }
    forall i, j | 0 <= i < j < 16
      ensures TimeBefore(s[i].time, s[j].time)
    {
      SlotAtShape(date, toIso, i);
      SlotAtShape(date, toIso, j);
    }
    assert s[0] == SlotAt(date, toIso, 0) && s[15] == SlotAt(date, toIso, 15);
    BoundaryTimes(date, toIso);
  }

  /** The first generated time is "09:00" and the last "16:30". */
  lemma BoundaryTimes(date: string, toIso: (int, int) -> string)
    ensures SlotAt(date, toIso, 0).time == "09:00" && SlotAt(date, toIso, 15).time == "16:30"
  {
    assert Clock.DecimalString(9) == "9" && Clock.DecimalString(0) == "0";
    assert Clock.DecimalString(16) == "16" by {
      assert Clock.DecimalString(1) == "1" && Clock.DecimalString(6) == "6";
    }
    assert Clock.DecimalString(30) == "30" by {
      assert Clock.DecimalString(3) == "3";
    }
  }

  /** `array.filter(() => Math.random() > 0.3)`: element i stays when `keep(i)`. */
  function KeepWhere<T>(xs: seq<T>, keep: nat -> bool): (r: seq<T>)
    ensures |r| <= |xs|
  {
    if xs == [] then []
    else KeepWhere(xs[..|xs| - 1], keep) + (if keep(|xs| - 1) then [xs[|xs| - 1]] else [])
  }

  /** The indices below n that the filter keeps, in increasing order. */
  function KeptIndices(n: nat, keep: nat -> bool): seq<nat> {
    if n == 0 then [] else KeptIndices(n - 1, keep) + (if keep(n - 1) then [n - 1] else [])
  }

  /** The filter keeps exactly the elements it draws `true` for, in their
      original order: an order-preserving subsequence of its input. */
  lemma {:induction false} KeepWhereIsSubsequence<T>(xs: seq<T>, keep: nat -> bool)
    ensures var r, idx := KeepWhere(xs, keep), KeptIndices(|xs|, keep);
      |r| == |idx|
      && (forall k :: 0 <= k < |idx| ==> idx[k] < |xs| && r[k] == xs[idx[k]])
      && (forall k, l :: 0 <= k < l < |idx| ==> idx[k] < idx[l])
      && (forall i :: 0 <= i < |xs| ==> (i in idx <==> keep(i)))
  {
    if xs != [] {
      var n := |xs| - 1;
      var init := xs[..n];
      KeepWhereIsSubsequence(init, keep);
      assert KeepWhere(xs, keep) == KeepWhere(init, keep) + (if keep(n) then [xs[n]] else []);
      assert KeptIndices(|xs|, keep) == KeptIndices(n, keep) + (if keep(n) then [n] else []);
    }
  }

  /** The slots left by the filter are the generated slots at the kept indices, in order. */
  lemma KeptMockSlots(date: string, toIso: (int, int) -> string, keep: nat -> bool)
    ensures var slots, idx := KeepWhere(MockSlots(date, toIso), keep), KeptIndices(16, keep);
      |slots| == |idx|
      && forall k :: 0 <= k < |idx| ==> idx[k] < 16 && slots[k] == SlotAt(date, toIso, idx[k])
  {
    var slots, idx := KeepWhere(MockSlots(date, toIso), keep), KeptIndices(16, keep);
    HalfHoursLength(SlotMaker(date, toIso), 17);
    KeepWhereIsSubsequence(MockSlots(date, toIso), keep);
    forall k | 0 <= k < |idx|
      ensures slots[k] == SlotAt(date, toIso, idx[k])
    {
      MockSlotAt(date, toIso, idx[k]);
    }
  }

  /** The static calendar_info of the mock: both platforms, 30-minute default, 15-minute buffer. */
  const MockCalendarInfo := CalendarInfo(
    30,
    [MeetingPlatform("zoom", true, Some("https://zoom.us/j/example"), Some("Zoom Meeting")),
     MeetingPlatform("google_meet", true, Some("https://meet.google.com/example"), Some("Google Meet"))],
    DefaultTimezone,
    15)

  /** ASCII `toLowerCase`. */
  function AsciiLower(s: string): (r: string)
    ensures |r| == |s|
    ensures forall i :: 0 <= i < |s| ==> r[i] == if 'A' <= s[i] <= 'Z' then (s[i] as int + 32) as char else s[i]
  {
    if s == [] then [] else [if 'A' <= s[0] <= 'Z' then (s[0] as int + 32) as char else s[0]] + AsciiLower(s[1..])
  }

  /** The mock user: `username || "Kunal"`, and an email made from the lower-cased username. */
  function MockUser(username: string): (u: UserInfo)
    ensures username != "" ==> u.username == username
    ensures username == "" ==> u.username == "Kunal"
    ensures u.email == AsciiLower(username) + "@example.com"
    ensures |u.email| == |username| + 12 && u.email[|username|..] == "@example.com"
    ensures forall i :: 0 <= i < |username| ==> !('A' <= u.email[i] <= 'Z')
  {
    UserInfo(
      if username == "" then "Kunal" else username,
      AsciiLower(username) + "@example.com",
      Some("https://avatars.githubusercontent.com/u/12345678?v=4"),
      "premium",
      Some("Acme Inc."),
      Some("https://acme-inc.example.com"),
      Some("https://linkedin.com/in/kunal-example"),
      ["zoom", "google_meet"])
  }

  /** getMockAvailabilityData, as a value. */
  function MockAvailability(username: string, date: string, toIso: (int, int) -> string, keep: nat -> bool)
    : (r: AvailabilityResponse)
    ensures r.success && r.message == FetchedMessage && |r.data.availability| <= 16
    ensures r.data.user == MockUser(username) && r.data.calendarInfo == MockCalendarInfo
    ensures r.data.bufferTime == 15 && r.data.timezone == DefaultTimezone
  {
    HalfHoursLength(SlotMaker(date, toIso), 17);
    AvailabilityResponse(
      true,
      AvailabilityData(KeepWhere(MockSlots(date, toIso), keep), MockCalendarInfo, MockUser(username), 15, DefaultTimezone),
      FetchedMessage)
  }

  /** getMockAvailabilityData: generate the slots, filter them, wrap them. */
  method GetMockAvailabilityData(username: string, date: string, toIso: (int, int) -> string, keep: nat -> bool)
    returns (r: AvailabilityResponse)
    ensures r == MockAvailability(username, date, toIso, keep)
    ensures r.success && |r.data.availability| <= 16
  {
    var timeSlots := GenerateSlots(date, toIso);
    var availableSlots := KeepWhere(timeSlots, keep);
    HalfHoursLength(SlotMaker(date, toIso), 17);
    r := AvailabilityResponse(
      true,
      AvailabilityData(availableSlots, MockCalendarInfo, MockUser(username), 15, DefaultTimezone),
      FetchedMessage);
  }

  // ---------------------------------------------------------------------
  // fetchAvailability

  /** What `response.json()` would yield: a parse failure, or a body with an
      optional `message` field and the payload it decodes to. */
  datatype JsonBody = Unparseable | Json(message: Option<string>, payload: AvailabilityResponse)

  /** The parts of a fetch `Response` the client reads. */
  datatype HttpResponse = HttpResponse(
    contentType: Option<string>,
    ok: bool,
    status: nat,
    statusText: string,
    body: JsonBody)

  /** `s.includes(sub)`. */
  predicate Includes(s: string, sub: string) {
    if |s| < |sub| then false else s[..|sub|] == sub || Includes(s[1..], sub)
  }

  /** `contentType && contentType.includes(kind)`. */
  predicate HasContentType(r: HttpResponse, kind: string) {
    r.contentType.Some? && Includes(r.contentType.value, kind)
  }

  /** "Error {status}: {statusText}". */
  function StatusMessage(status: nat, statusText: string): string {
    "Error " + Clock.DecimalString(status) + ": " + statusText
  }

  /** The message of the error thrown for a non-OK response. */
  function ErrorMessage(r: HttpResponse): Option<string> {
    if HasContentType(r, "application/json") then
      match r.body
      case Unparseable => None
      case Json(message, _) => Some(StringOr(message, StatusMessage(r.status, r.statusText)))
    else Some(StatusMessage(r.status, r.statusText))
  }

  /** The `try` block of fetchAvailability: what it returns or what it throws.
      `response == None` is a fetch that rejects (no response at all). */
  function TryFetch(response: Option<HttpResponse>, mock: AvailabilityResponse): (r: Result<AvailabilityResponse, FetchError>)
    ensures response.None? ==> r == Failure(NetworkFailure)
    ensures response.Some? && HasContentType(response.value, "text/html") ==> r == Success(mock)
    ensures r.Failure? <==>
      response.None? || (!HasContentType(response.value, "text/html") && (!response.value.ok || response.value.body.Unparseable?))
    ensures r.Success? ==>
      r.value == mock || (response.Some? && response.value.ok && response.value.body.Json? && r.value == response.value.body.payload)
  {
    match response
    case None => Failure(NetworkFailure)
    case Some(r) =>
      if HasContentType(r, "text/html") then Success(mock)
      else if !r.ok then
        match ErrorMessage(r)
        case None => Failure(ParseFailure)
        case Some(message) => Failure(RequestFailed(message))
      else
        match r.body
        case Unparseable => Failure(ParseFailure)
        case Json(_, payload) => Success(payload)
  }

  /** fetchAvailability: the `catch` turns every thrown error into the mock data. */
  function FetchAvailability(
    username: string, date: string, response: Option<HttpResponse>,
    toIso: (int, int) -> string, keep: nat -> bool): (r: AvailabilityResponse)
    ensures response.Some? && HasContentType(response.value, "text/html")
      ==> r == MockAvailability(username, date, toIso, keep)
    ensures response.Some? && !HasContentType(response.value, "text/html") && response.value.ok && response.value.body.Json?
      ==> r == response.value.body.payload
    ensures r == MockAvailability(username, date, toIso, keep)
      || (response.Some? && response.value.ok && response.value.body.Json? && r == response.value.body.payload)
  {
    var mock := MockAvailability(username, date, toIso, keep);
    match TryFetch(response, mock)
    case Success(data) => data
    case Failure(_) => mock
  }

  /** A non-OK, non-HTML response throws the body's message when the body is
      JSON with a non-empty message, "Error {status}: {statusText}" otherwise,
      and a parse error when a JSON-typed body does not parse. */
  lemma NotOkThrows(r: HttpResponse, mock: AvailabilityResponse)
    requires !HasContentType(r, "text/html") && !r.ok
    ensures HasContentType(r, "application/json") && r.body.Json? && r.body.message.Some? && r.body.message.value != ""
      ==> TryFetch(Some(r), mock) == Failure(RequestFailed(r.body.message.value))
    ensures HasContentType(r, "application/json") && r.body.Unparseable?
      ==> TryFetch(Some(r), mock) == Failure(ParseFailure)
    ensures (!HasContentType(r, "application/json") || (r.body.Json? && IsFalsy(r.body.message, "")))
      ==> TryFetch(Some(r), mock) == Failure(RequestFailed(StatusMessage(r.status, r.statusText)))
  {
  }

  /** No error reaches the caller: whenever the `try` block throws, the
      result is the mock data, so fetchAvailability always resolves. */
  lemma ErrorsAreSwallowed(
    username: string, date: string, response: Option<HttpResponse>,
    toIso: (int, int) -> string, keep: nat -> bool)
    requires TryFetch(response, MockAvailability(username, date, toIso, keep)).Failure?
    ensures FetchAvailability(username, date, response, toIso, keep) == MockAvailability(username, date, toIso, keep)
  {
  }

  /** A server failure, whatever its status, shows the mock slots: every
      slot shown then is one of the sixteen generated ones, in order. */
  lemma FailedFetchShowsMockSlots(
    username: string, date: string, r: HttpResponse,
    toIso: (int, int) -> string, keep: nat -> bool)
    requires !r.ok || HasContentType(r, "text/html")
    ensures var shown := FetchAvailability(username, date, Some(r), toIso, keep).data.availability;
      shown == KeepWhere(MockSlots(date, toIso), keep) && |shown| <= 16
  {
    HalfHoursLength(SlotMaker(date, toIso), 17);
  }
}
