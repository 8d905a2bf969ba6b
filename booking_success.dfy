/** The confirmation dialog of src/components/BookingSuccess.tsx: nothing
    without a booking, otherwise the start time, duration, platform and,
    when there is one, the meeting link. */
module BookingSuccess {
  import opened Calendar
  import Clock
  import Api

  /** The meeting-link block: the anchor's `href` and its visible text. */
  datatype LinkSection = LinkSection(href: string, text: string)

  /** What the component renders; `DialogThrows` is a start time whose formatting throws. */
  datatype SuccessView =
    | NoDialog
    | DialogThrows
    | Confirmation(timeLabel: string, duration: int, platform: string, link: Option<LinkSection>)

  /** BookingSuccess: `now` is the time of the `new Date()` formatTime builds. */
  function Render(now: Clock.MinuteOfDay, booking: Option<Booking>): (v: SuccessView)
    ensures v == NoDialog <==> booking.None?
    ensures v == DialogThrows <==> booking.Some? && Clock.FormatTime(now, booking.value.startTime).None?
    ensures v.Confirmation? ==>
      Clock.FormatTime(now, booking.value.startTime) == Some(v.timeLabel)
      && v.duration == booking.value.duration && v.platform == booking.value.platform
    ensures v.Confirmation? ==> (v.link.Some? <==> booking.value.meetingLink != "")
    ensures v.Confirmation? && v.link.Some? ==>
      v.link.value.href == booking.value.meetingLink && v.link.value.text == booking.value.meetingLink
  {
    match booking
    case None => NoDialog
    case Some(b) =>
      var time := Clock.FormatTime(now, b.startTime);
      if time.None? then DialogThrows
      else
        Confirmation(time.value, b.duration, b.platform,
          if b.meetingLink != "" then Some(LinkSection(b.meetingLink, b.meetingLink)) else None)
  }

  /** A booking made through bookTimeSlot for a valid zero-padded start time
      is confirmed with that time's 12-hour reading, and always shows its
      meeting link: the Zoom link exactly when the platform is "zoom". */
  lemma BookedSlotConfirmation(
    now: Clock.MinuteOfDay, username: string, request: BookingRequest,
    uidSuffix: string, createdAt: string, h: nat, m: nat)
    requires h < 24 && m < 60 && request.startTime == Clock.PadStart2(h) + ":" + Clock.PadStart2(m)
    ensures var response := Api.BookTimeSlot(username, request, uidSuffix, createdAt).value;
      var v := Render(now, Some(response.bookings[0]));
      v.Confirmation? && v.timeLabel == Clock.ClockLabel(h, m)
      && v.duration == request.duration && v.platform == request.platform
      && v.link.Some?
      && (v.link.value.href == Api.ZoomMeetingLink <==> request.platform == "zoom")
  {
    Clock.FormatTimeOfValid(now, h, m);
  }
}
