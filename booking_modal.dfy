/** The booking form dialog of src/components/BookingModal.tsx: the
    react-hook-form rules on name, email and notes, the null-slot guard,
    the slot time line and the buttons disabled while submitting. */
module BookingModal {
  import opened Calendar
  import Clock

  const NameRequired := "Name is required"
  const EmailRequired := "Email is required"
  const InvalidEmail := "Invalid email address"

  // ---------------------------------------------------------------------
  // The email pattern /^[A-Z0-9._%+-]+@[A-Z0-9.-]+\.[A-Z]{2,}$/i

  /** `[A-Z]` under the `i` flag. */
  predicate IsLetter(c: char) {
    'A' <= c <= 'Z' || 'a' <= c <= 'z'
  }

  /** `[A-Z0-9._%+-]` under the `i` flag. */
  predicate IsLocalChar(c: char) {
    IsLetter(c) || Clock.IsDigit(c) || c == '.' || c == '_' || c == '%' || c == '+' || c == '-'
  }

  /** `[A-Z0-9.-]` under the `i` flag. */
  predicate IsDomainChar(c: char) {
    IsLetter(c) || Clock.IsDigit(c) || c == '.' || c == '-'
  }

  predicate AllLocal(s: string) {
    forall i :: 0 <= i < |s| ==> IsLocalChar(s[i])
  }

  predicate AllDomain(s: string) {
    forall i :: 0 <= i < |s| ==> IsDomainChar(s[i])
  }

  predicate AllLetters(s: string) {
    forall i :: 0 <= i < |s| ==> IsLetter(s[i])
  }

  /** `s` splits at `at` and `dot` as the pattern reads it: a non-empty
      local part, '@', a non-empty domain, '.', and a top-level part of at
      least two letters, each part drawn from its character class. */
  predicate SplitsAt(s: string, at: int, dot: int) {
    0 < at && at + 1 < dot && dot + 2 < |s| && s[at] == '@' && s[dot] == '.'
    && AllLocal(s[..at]) && AllDomain(s[at + 1..dot]) && AllLetters(s[dot + 1..])
  }

  /** The regular expression read literally: some split of `s` fits it. */
  ghost predicate MatchesEmailPattern(s: string) {
    exists at, dot :: SplitsAt(s, at, dot)
  }

  /** Index of the last `c` in `s`, or -1 when there is none. */
  function LastIndexOf(s: string, c: char): (i: int)
    ensures -1 <= i < |s|
    ensures i >= 0 ==> s[i] == c
    ensures forall j :: i < j < |s| ==> s[j] != c
  {
    if s == [] then -1 else if s[|s| - 1] == c then |s| - 1 else LastIndexOf(s[..|s| - 1], c)
  }

  /** Only one split can fit the pattern: at the first '@' and the last '.'. */
  lemma CanonicalSplit(s: string)
    ensures MatchesEmailPattern(s) <==> SplitsAt(s, Clock.IndexOf(s, '@'), LastIndexOf(s, '.'))
  {
    var at := Clock.IndexOf(s, '@');
    var dot := LastIndexOf(s, '.');
    if MatchesEmailPattern(s) {
      var a, d :| SplitsAt(s, a, d);
      forall j | 0 <= j < a
        ensures s[j] != '@'
      {
        assert s[j] == s[..a][j];
      }
      assert at == a;
      forall j | d < j < |s|
        ensures s[j] != '.'
      {
        assert s[j] == s[d + 1..][j - d - 1];
      }
      assert dot == d;
    }
  }

  /** The pattern decided without backtracking: it accepts exactly the
      strings the regular expression matches. */
  function IsValidEmail(s: string): (r: bool)
    ensures r <==> MatchesEmailPattern(s)
  {
    CanonicalSplit(s);
    SplitsAt(s, Clock.IndexOf(s, '@'), LastIndexOf(s, '.'))
  }

  /** No character class of the pattern admits '@', so an address split as
      the pattern splits it holds '@' only at the split point. */
  lemma AtOnlyAtSplit(s: string, at: nat, dot: nat)
    requires at < dot < |s| && s[dot] == '.'
    requires AllLocal(s[..at]) && AllDomain(s[at + 1..dot]) && AllLetters(s[dot + 1..])
    ensures forall i :: 0 <= i < |s| && i != at ==> s[i] != '@'
  {
    forall i | 0 <= i < |s| && i != at
      ensures s[i] != '@'
    {
      if i < at {
        assert s[i] == s[..at][i];
      } else if i < dot {
        assert s[i] == s[at + 1..dot][i - at - 1];
      } else if i > dot {
        assert s[i] == s[dot + 1..][i - dot - 1];
      }
    }
  }

  /** A matching address holds exactly one '@'. */
  lemma MatchedEmailHasOneAt(s: string)
    requires MatchesEmailPattern(s)
    ensures var at := Clock.IndexOf(s, '@');
      at < |s| && s[at] == '@' && forall i :: 0 <= i < |s| && i != at ==> s[i] != '@'
  {
    var a, d :| SplitsAt(s, a, d);
    AtOnlyAtSplit(s, a, d);
  }

  /** "ann@x.com" and its upper-case spelling match. */
  lemma EmailAccepted()
    ensures MatchesEmailPattern("ann@x.com") && MatchesEmailPattern("ANN@X.COM")
  {
    var lower, upper := "ann@x.com", "ANN@X.COM";
    assert lower[..3] == "ann" && lower[4..5] == "x" && lower[6..] == "com";
    assert upper[..3] == "ANN" && upper[4..5] == "X" && upper[6..] == "COM";
    assert lower[3] == '@' && lower[5] == '.' && upper[3] == '@' && upper[5] == '.';
    assert SplitsAt(lower, 3, 5) && SplitsAt(upper, 3, 5);
  }

  /** "ann@x" (no top-level part) and "a@b.c" (a one-letter top-level part) do not match. */
  lemma EmailRejected()
    ensures !MatchesEmailPattern("ann@x") && !MatchesEmailPattern("a@b.c")
  {
    CanonicalSplit("ann@x");
    CanonicalSplit("a@b.c");
  }

  // ---------------------------------------------------------------------
  // The form rules

  /** The message react-hook-form records for each field; `None` is no error.
      Notes are registered without rules and so never carry an error. */
  datatype FormErrors = FormErrors(name: Option<string>, email: Option<string>)

  /** The `register` rules: name `required`; email `required`, then `pattern`. */
  function Validate(inputs: BookingFormInputs): (e: FormErrors)
    ensures e.name.Some? <==> inputs.name == ""
    ensures e.name.Some? ==> e.name.value == NameRequired
    ensures e.email.None? <==> MatchesEmailPattern(inputs.email)
    ensures inputs.email == "" ==> e.email == Some(EmailRequired)
    ensures inputs.email != "" && !MatchesEmailPattern(inputs.email) ==> e.email == Some(InvalidEmail)
  {
    FormErrors(
      if inputs.name == "" then Some(NameRequired) else None,
      if inputs.email == "" then Some(EmailRequired)
      else if !IsValidEmail(inputs.email) then Some(InvalidEmail)
      else None)
  }

  /** `handleSubmit(onSubmit)`: the data reaching `onSubmit`, if validation passes. */
  function HandleSubmit(inputs: BookingFormInputs): (submitted: Option<BookingFormInputs>)
    ensures submitted.Some? <==> inputs.name != "" && MatchesEmailPattern(inputs.email)
    ensures submitted.Some? ==> submitted.value == inputs
  {
    var errors := Validate(inputs);
    if errors.name.None? && errors.email.None? then Some(inputs) else None
  }

  /** Notes carry no rule: whatever they hold, the form is accepted or
      rejected exactly as it would be with any other notes. */
  lemma NotesUnconstrained(inputs: BookingFormInputs, notes: string)
    ensures Validate(inputs.(notes := notes)) == Validate(inputs)
    ensures HandleSubmit(inputs.(notes := notes)).Some? <==> HandleSubmit(inputs).Some?
  {
  }

  // ---------------------------------------------------------------------
  // Rendering

  /** What the component renders: nothing, a render that throws (format on an
      Invalid Date), or the dialog with its slot line and two buttons. */
  datatype ModalView =
    | NoModal
    | ModalThrows
    | Modal(timeLabel: string, duration: int, cancelDisabled: bool, confirmDisabled: bool, confirmText: string)

  /** BookingModal: `now` is the time of the `new Date()` formatTime builds. */
  function RenderModal(now: Clock.MinuteOfDay, selectedSlot: Option<TimeSlot>, isSubmitting: bool): (v: ModalView)
    ensures v == NoModal <==> selectedSlot.None?
    ensures v == ModalThrows <==> selectedSlot.Some? && Clock.FormatTime(now, selectedSlot.value.time).None?
    ensures v.Modal? ==>
      Clock.FormatTime(now, selectedSlot.value.time) == Some(v.timeLabel) && v.duration == selectedSlot.value.duration
    ensures v.Modal? ==> (v.cancelDisabled <==> isSubmitting) && (v.confirmDisabled <==> isSubmitting)
    ensures v.Modal? ==> (v.confirmText == "Booking..." <==> isSubmitting)
  {
    match selectedSlot
    case None => NoModal
    case Some(slot) =>
      var text := Clock.FormatTime(now, slot.time);
      if text.None? then ModalThrows
      else Modal(text.value, slot.duration, isSubmitting, isSubmitting, if isSubmitting then "Booking..." else "Confirm Booking")
  }

  /** A slot whose time is a valid zero-padded "HH:MM" is shown with its
      12-hour reading, and both buttons follow `isSubmitting`. */
  lemma ModalOfValidSlot(now: Clock.MinuteOfDay, slot: TimeSlot, h: nat, m: nat, isSubmitting: bool)
    requires h < 24 && m < 60 && slot.time == Clock.PadStart2(h) + ":" + Clock.PadStart2(m)
    ensures var v := RenderModal(now, Some(slot), isSubmitting);
      v.Modal? && v.timeLabel == Clock.ClockLabel(h, m) && v.duration == slot.duration
      && v.cancelDisabled == v.confirmDisabled == isSubmitting
  {
    Clock.FormatTimeOfValid(now, h, m);
  }
}
