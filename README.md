# booking-blitz-ui in Dafny

booking-blitz-ui is a public booking page. A visitor picks a date, sees the
free half-hour slots of a host, fills in a form and gets a confirmation. This
project models the page's deterministic core and proves properties of it:

- **The calendar API client** (`src/lib/api.ts`), in module `Api`:
  - `fetchAvailability` branches on the response: an HTML page, a non-OK
    status with or without a JSON error body, or an OK JSON payload. Its
    `catch` turns every error into mock data.
  - `bookTimeSlot` never reaches the network. It returns the mock booking
    echo.
  - `getMockAvailabilityData` builds sixteen half-hour slots (09:00 to 16:30)
    in two nested loops. It then keeps a random subset of them.
  - `getMockBookingResponse` copies a booking request into a confirmed
    booking. It fills in the defaults `||` gives.
- **The "HH:MM" to "h:mm AM/PM" formatter** (module `Clock`). It splits on
  ':', applies `parseInt` to both fields, sets them on a `Date` and formats
  with date-fns `'h:mm a'`.
- **The booking form** (`BookingModal.tsx`, module `BookingModal`): the name
  and email rules, the null-slot guard, the slot line, and the buttons
  disabled while a booking is being submitted.
- **The slot grid** (`TimeSlotGrid.tsx`, module `TimeSlotGrid`): a loading
  view, an empty view, or one button per slot.
- **The confirmation dialog** (`BookingSuccess.tsx`, module
  `BookingSuccess`): the null guard, the start time and the meeting-link
  block.

The records of `src/types/calendar.ts` are datatypes in module `Calendar`.
`null`, `undefined` and optional fields are `Option`. A thrown error is
either a `Result` failure or a `...Throws` view. JavaScript numbers are
unbounded integers.

Randomness and the clock are parameters:
- `uidSuffix` is the random part of `booking_uid`.
- `createdAt` is `new Date().toISOString()`.
- `toIso(h, m)` is `toISOString()` of the `Date` parsed from `date` after
  its local hours and minutes are set to h and m. `new Date("YYYY-MM-DD")`
  reads the date as UTC midnight, so west of UTC the local day it falls on,
  and hence each slot's start and end, is the day before `date`. Minutes past
  59 roll over into the next hour.
- `keep(i)` says whether the i-th `Math.random()` of the slot filter exceeds 0.3.
- `now` is the time of day of the `new Date()` the formatter starts from.

The three components each define their own copy of the formatter, with the
same text. It is modelled once, as `Clock.FormatTime`, and each view uses
that one function. So the three copies agree by construction.

## Model

| member | source | states |
|---|---|---|
| Api.MockBooking | src/lib/api.ts:166-183 | The booking copies title, date, start time, duration, platform and attendees. Its status is "confirmed" and its uid starts with "booking_". The meeting link is the Zoom URL exactly when the platform is "zoom", and the Google Meet URL otherwise. Notes, buffers and timezone are copied when truthy, and are otherwise "", 0, 0 and "America/New_York". |
| Api.MockBookingResponse | src/lib/api.ts:160-188 | The response is a success with status code 201 and the booked message. It holds exactly one booking, the echo of the request. |
| Api.MockBookingDeterminedBy | src/lib/api.ts:166-183 | Two requests give the same booking if and only if they agree on the copied fields and on each optional field after `\|\|` has resolved it. `recurring` is dropped. |
| Api.MockBookingRoundTrip | src/lib/api.ts:166-183 | Echoing the request a booking describes gives the same booking back. The defaults are fixed points. |
| Api.BookTimeSlot | src/lib/api.ts:55-94 | The call never throws. It resolves to a 201 success holding exactly the mock booking for the request. |
| Api.HalfHoursLength | src/lib/api.ts:104-106 | Each hour the outer loop visits adds two entries. |
| Api.HalfHoursAt | src/lib/api.ts:104-106 | Entry i is built for hour 9 + i/2, at minute 0 when i is even and minute 30 when i is odd. |
| Api.MockSlotAt | src/lib/api.ts:104-121 | There are sixteen generated slots, and slot i is the slot for hour 9 + i/2 and minute (i mod 2)·30. |
| Api.GenerateSlots | src/lib/api.ts:101-122 | The nested loops push exactly the slot sequence `MockSlots`, in loop order. |
| Api.SlotAtShape | src/lib/api.ts:107-120 | Each generated time is a zero-padded 5-character "HH:MM" that parses back to its hour and minute. Slot i starts 540 + 30·i minutes after midnight. Its date is the requested date and its duration is 30. It ends at the instant 30 minutes after its start. |
| Api.MockSlotShape | src/lib/api.ts:107-120 | The slot built for hour h and minute m has a zero-padded 5-character "HH:MM" time that parses back to h and m. Its date is the requested date, its duration 30, its start `toIso(h, m)` and its end `toIso(h, m + 30)`. |
| Api.PaddedTimeShape | src/lib/api.ts:107 | Two `padStart(2, '0')` fields joined by ':' make five characters with ':' at index 2, two digits on each side, and parse back to the hour and the minute. |
| Api.MockSlotsShape | src/lib/api.ts:104-121 | Before filtering there are exactly 16 slots, from "09:00" to "16:30", in strictly increasing time order. |
| Api.BoundaryTimes | src/lib/api.ts:104-107 | The first generated time is "09:00" and the last is "16:30". |
| Api.KeepWhere | src/lib/api.ts:125 | The filter never lengthens the list. |
| Api.KeepWhereIsSubsequence | src/lib/api.ts:125 | The filter result is the input at the kept indices, which are strictly increasing. An index is kept exactly when its draw says keep. |
| Api.KeptMockSlots | src/lib/api.ts:104-125 | The available slots are the generated slots at the kept indices, in order. |
| Api.AsciiLower | src/lib/api.ts:142 | Lower-casing keeps the length, maps 'A'..'Z' to 'a'..'z' and leaves every other character unchanged. |
| Api.MockUser | src/lib/api.ts:140-149 | The user name is the given one, or "Kunal" when it is empty. The email is the lower-cased given name, not "Kunal", followed by "@example.com", so an empty name gives "@example.com". It has no upper-case ASCII letter before the suffix. |
| Api.MockAvailability | src/lib/api.ts:127-154 | The mock response is a success with the message "Availability fetched successfully." and at most 16 slots. It carries the mock user for the name, the static calendar info with both platforms, a 15-minute buffer and the "America/New_York" timezone. |
| Api.GetMockAvailabilityData | src/lib/api.ts:99-155 | The method returns the mock availability value. It is a success holding at most 16 slots. |
| Api.TryFetch | src/lib/api.ts:15-43 | A rejected fetch fails. An HTML response yields the mock data whatever its status. The `try` block fails exactly when the fetch rejects, or when the response is not HTML and is either not OK or has an unparseable body. A success is the mock data or the parsed payload of an OK response. |
| Api.FetchAvailability | src/lib/api.ts:11-50 | An HTML response gives the mock data whatever its status. An OK non-HTML response with a parsable body gives that payload. Every other outcome gives the mock data. |
| Api.NotOkThrows | src/lib/api.ts:31-39 | A non-OK, non-HTML response throws. The message is the JSON body's when that is non-empty, and otherwise "Error {status}: {statusText}". A JSON-typed body that does not parse throws a parse error. |
| Api.ErrorsAreSwallowed | src/lib/api.ts:44-49 | Whenever the `try` block throws, including when the network call itself rejects, the caller receives the mock data. |
| Api.FailedFetchShowsMockSlots | src/lib/api.ts:25-49 | A non-OK or HTML response shows the filtered mock slots, at most sixteen. |
| Clock.DecimalString | src/lib/api.ts:107 | `toString` of a natural number is a non-empty string of digits. It starts with '0' only for 0, and is one digit long exactly below 10. |
| Clock.DecimalStringValue | src/lib/api.ts:107 | Reading a decimal rendering back gives the number rendered. |
| Clock.PadStart2TwoDigits | src/lib/api.ts:107 | Below 100, `padStart(2, '0')` gives exactly two digits that denote the number. |
| Clock.SplitTime | src/components/BookingModal.tsx:33 | Destructuring `split(':')` into two: the first field is the text before the first ':', or the whole text when there is none. The second is missing exactly when there is no ':'. Otherwise it is the text after the first ':' up to the next ':' or the end. |
| Clock.IndexOf | src/components/BookingModal.tsx:33 | The index is that of the first occurrence of the character, or the length of the string when there is none. |
| Clock.LeadingDigits | src/components/BookingModal.tsx:35 | The result is the longest all-digit prefix: it is followed by a non-digit or by the end of the string. |
| Clock.LeadingDigitsOfDigits | src/components/BookingModal.tsx:35 | The digit prefix of digits followed by a non-digit is exactly those digits. |
| Clock.ParseInt | src/components/BookingModal.tsx:35-36 | `parseInt(x, 10)` gives a number exactly when the text starts with a digit, or with '+' or '-' followed by a digit. A negative result needs a leading '-'. |
| Clock.ParseIntDecimal | src/components/BookingModal.tsx:35-36 | `parseInt` reads back any decimal rendering, whatever non-digit text follows it. |
| Clock.ParseIntMinusDigits | src/components/BookingModal.tsx:35-36 | `parseInt` of '-', digits and a non-digit tail is the negated value of the digits. |
| Clock.ParseIntNegativeDecimal | src/components/BookingModal.tsx:35-36 | `parseInt` reads back a negative decimal rendering. |
| Clock.ParseTimePadded | src/components/BookingModal.tsx:33-36 | Splitting a zero-padded "HH:MM" on ':' and applying `parseInt` to both fields gives back the hour and the minute. |
| Clock.SetHours | src/components/BookingModal.tsx:35 | `setHours(h)` makes the hour h mod 24 and keeps the minutes. |
| Clock.SetMinutes | src/components/BookingModal.tsx:36 | `setMinutes(m)` makes the minute m mod 60. For m in 0..59 it keeps the hour and the minute becomes exactly m. |
| Clock.SetHoursThenMinutes | src/components/BookingModal.tsx:34-36 | Setting the hours and then the minutes gives h·60 + m modulo a day, whatever the clock showed before. |
| Clock.SettersInRange | src/components/BookingModal.tsx:34-36 | For an in-range hour and minute, the setters give exactly h:m. |
| Clock.FormatTime | src/components/BookingModal.tsx:32-38 | The formatter fails (the format of an Invalid Date throws) exactly when either field fails `parseInt`. Otherwise it gives the 12-hour reading of h·60 + m modulo a day. |
| Clock.FormatTimeIgnoresNow | src/components/BookingModal.tsx:32-38 | The output never depends on the time of `new Date()`. |
| Clock.HourTextShape | src/components/BookingModal.tsx:37 | The hour of the 12-hour reading has one or two digits and no leading zero, and denotes (h + 11) mod 12 + 1. |
| Clock.FormatHmmA | src/components/BookingModal.tsx:37 | The `'h:mm a'` text of a time of day is the 12-hour reading `ClockLabel` of its hour and minute. |
| Clock.FormatHmmAIsClockLabel | src/components/BookingModal.tsx:37 | `'h:mm a'` gives "12:mm AM" at hour 0, "h:mm AM" for 1 to 11, "12:mm PM" at 12, and "(h-12):mm PM" for 13 to 23. |
| Clock.FormatTimeOfParsed | src/components/BookingModal.tsx:32-38 | Any text that parses to a valid hour and minute is formatted as their 12-hour reading. |
| Clock.FormatTimeOfValid | src/components/BookingModal.tsx:32-38 | Every valid zero-padded "HH:MM" is formatted as its 12-hour reading. |
| Clock.ClockLabelShape | src/components/BookingModal.tsx:32-38 | The output has an hour with no leading zero, denoting 1 to 12, then ':', then two minute digits denoting m, then " AM" exactly when h < 12, and otherwise " PM". |
| BookingModal.LastIndexOf | src/components/BookingModal.tsx:87 | The index is that of the last occurrence of the character, or -1 when there is none. |
| BookingModal.CanonicalSplit | src/components/BookingModal.tsx:87 | An address matches the email pattern exactly when it matches with the '@' at its first '@' and the final dot at its last '.'. |
| BookingModal.IsValidEmail | src/components/BookingModal.tsx:87 | The decision procedure without backtracking accepts exactly the strings the case-insensitive email pattern matches. |
| BookingModal.AtOnlyAtSplit | src/components/BookingModal.tsx:87 | No character class of the pattern admits '@', so a split address has '@' only at the split. |
| BookingModal.MatchedEmailHasOneAt | src/components/BookingModal.tsx:87 | Every matching address holds exactly one '@'. |
| BookingModal.EmailAccepted | src/components/BookingModal.tsx:87 | "ann@x.com" matches, and so does its upper-case spelling, since the pattern ignores case. |
| BookingModal.EmailRejected | src/components/BookingModal.tsx:87 | "ann@x" and "a@b.c" do not match. |
| BookingModal.Validate | src/components/BookingModal.tsx:67-90 | The name fails with "Name is required" exactly when it is empty. The email fails with "Email is required" when empty, fails with "Invalid email address" when non-empty and not matching, and passes exactly when it matches. |
| BookingModal.HandleSubmit | src/components/BookingModal.tsx:56 | `onSubmit` receives the inputs unchanged exactly when the name is non-empty and the email matches. |
| BookingModal.NotesUnconstrained | src/components/BookingModal.tsx:105 | Changing the notes changes neither the errors nor whether the form submits. |
| BookingModal.RenderModal | src/components/BookingModal.tsx:30-129 | The modal renders nothing exactly when there is no slot. It throws exactly when the slot time fails to format. Otherwise it shows the formatted time and the slot's duration. Cancel and Confirm are each disabled exactly when submitting, and the label reads "Booking..." exactly then. |
| BookingModal.ModalOfValidSlot | src/components/BookingModal.tsx:32-52 | A slot with a valid "HH:MM" time is shown with its 12-hour reading, and both buttons follow `isSubmitting`. |
| TimeSlotGrid.Buttons | src/components/TimeSlotGrid.tsx:50-58 | There is one button per slot, in order. Button i carries slot i's start as key, selects exactly slot i, and is captioned with its formatted time. The map throws exactly when some time fails to format. |
| TimeSlotGrid.Render | src/components/TimeSlotGrid.tsx:18-58 | Loading wins over everything. When not loading, an empty list shows the empty view. Otherwise the grid shows exactly when every slot's time formats, and the render throws when one does not. The grid has one button per slot, in order: keyed by the slot's start, selecting that slot and captioned with its formatted time. |
| TimeSlotGrid.MockSlotCaption | src/components/TimeSlotGrid.tsx:38-56 | A generated slot is captioned with the 12-hour reading of its hour and minute. |
| TimeSlotGrid.GridOfGenerated | src/components/TimeSlotGrid.tsx:27-58 | A list of generated slots renders as the empty view when it is empty. Otherwise it renders one button per slot, in order, each selecting its slot and captioned with its 12-hour time. |
| TimeSlotGrid.MockSlotsRender | src/components/TimeSlotGrid.tsx:18-58 | The mock data never makes the grid throw. When the filter keeps no slot the empty view shows. Otherwise there is one button per kept slot, in generated order, captioned with its 12-hour time. |
| BookingSuccess.Render | src/components/BookingSuccess.tsx:15-66 | The dialog renders nothing exactly when there is no booking. It throws exactly when the start time fails to format. Otherwise it shows the formatted time, the duration and the platform. The link block appears exactly when the meeting link is non-empty, and its href and text are both that link. |
| BookingSuccess.BookedSlotConfirmation | src/components/BookingSuccess.tsx:15-66 | A booking returned by `bookTimeSlot` for a valid start time shows that time's 12-hour reading and always shows a link. The link is the Zoom link exactly when the platform is "zoom". |

## Left out

- The HTTP `fetch`, header reads, `response.json()` decoding and `console`
  logging are abstracted. A response is a record: content type, ok, status,
  status text, and a body that either fails to parse or carries an optional
  message and a payload. A rejected `fetch` is a missing response.
- The production POST path of `bookTimeSlot` is commented out in the source,
  and is not modelled.
- `Math.random` and `Date` are parameters (see above). So are the local
  timezone and the ISO rendering of the slot instants.
- An unparseable `date` makes `new Date(date).toISOString()` throw inside the
  mock builder. The model assumes well-formed dates.
- Daylight-saving gaps are not modelled: the formatter's `Date` is a
  minute-of-day wall clock.
- The long date line (`'EEEE, MMMM d, yyyy'`) in the modal and the dialog is
  not modelled, so neither is its throw on an invalid date. The CSS
  `capitalize` on the platform name is not modelled either.
- The browser's own `type="email"` check, the dialog's open state,
  react-hook-form internals such as re-validation on change, and all JSX
  markup and styling are not modelled.
- `src/components/DateSelector.tsx`, `src/components/UserHeader.tsx` and
  `src/pages/Index.tsx` are not part of this model. Neither is the page's
  booking workflow: stale-response handling, retries and the grouping of
  slots by part of day.
- The design intends a failed availability fetch to surface an error to the
  caller. The code swallows every error into mock data, and the model
  follows the code (`Api.ErrorsAreSwallowed`).
- Clock.ParseInt: leading whitespace, which `parseInt` skips, is not
  modelled. Nor are numbers too large for a double.
- Clock.FormatTime: a huge hour or minute (such as "99999999999:00") pushes
  a `Date` past ±8.64e15 ms. That `Date` is Invalid and `format` throws. The
  model has no absolute date, so it formats such a time like any other.
  `BookingModal.RenderModal`, `TimeSlotGrid.Render` and
  `BookingSuccess.Render` inherit this.
- Api.AsciiLower: lower-cases ASCII letters only, where `toLowerCase` also
  maps non-ASCII letters.
- Api.MockUser: the email contract inherits the ASCII-only lower-casing of
  `Api.AsciiLower`.
- Api.KeepWhere: its own contract bounds only the length. What is kept and
  in which order is stated by `Api.KeepWhereIsSubsequence`.
