/** The slot picker of src/components/TimeSlotGrid.tsx: a loading view, an
    empty view, or one button per slot labelled with its 12-hour time. */
module TimeSlotGrid {
  import opened Calendar
  import Clock
  import Api

  /** One grid button: its React `key`, its caption, and the slot its click
      handler passes to `onSelectTimeSlot`. */
  datatype SlotButton = SlotButton(key: string, caption: string, selects: TimeSlot)

  /** What the component renders; `GridThrows` is a caption whose formatting throws. */
  datatype GridView = LoadingView | NoAvailabilityView | Grid(buttons: seq<SlotButton>) | GridThrows

  /** `availableSlots.map(slot => <button …>)`, or `None` when some caption throws. */
  function Buttons(now: Clock.MinuteOfDay, slots: seq<TimeSlot>): (r: Option<seq<SlotButton>>)
    ensures r.Some? <==> forall i :: 0 <= i < |slots| ==> Clock.FormatTime(now, slots[i].time).Some?
    ensures r.Some? ==>
      |r.value| == |slots|
      && forall i :: 0 <= i < |slots| ==>
           r.value[i].selects == slots[i] && r.value[i].key == slots[i].start
           && Clock.FormatTime(now, slots[i].time) == Some(r.value[i].caption)
  {
    if forall i :: 0 <= i < |slots| ==> Clock.FormatTime(now, slots[i].time).Some? then
      Some(seq(|slots|, i requires 0 <= i < |slots| =>
        SlotButton(slots[i].start, Clock.FormatTime(now, slots[i].time).value, slots[i])))
    else
      None
  }

  /** TimeSlotGrid: loading first, then the empty case, then the grid. */
  function Render(now: Clock.MinuteOfDay, availableSlots: seq<TimeSlot>, isLoading: bool): (v: GridView)
    ensures isLoading ==> v == LoadingView
    ensures !isLoading && availableSlots == [] ==> v == NoAvailabilityView
    ensures !isLoading && availableSlots != [] ==>
      (v.Grid? <==> forall i :: 0 <= i < |availableSlots| ==> Clock.FormatTime(now, availableSlots[i].time).Some?)
      && (v.Grid? || v.GridThrows?)
    ensures v.Grid? ==>
      |v.buttons| == |availableSlots|
      && forall i :: 0 <= i < |availableSlots| ==>
           v.buttons[i].selects == availableSlots[i] && v.buttons[i].key == availableSlots[i].start
           && Clock.FormatTime(now, availableSlots[i].time) == Some(v.buttons[i].caption)
  {
    if isLoading then LoadingView
    else if |availableSlots| == 0 then NoAvailabilityView
    else
      var buttons := Buttons(now, availableSlots);
      if buttons.Some? then Grid(buttons.value) else GridThrows
  }

  /** A slot the generator builds at index i formats as the 12-hour reading of its hour and minute. */
  lemma MockSlotCaption(now: Clock.MinuteOfDay, slot: TimeSlot, date: string, toIso: (int, int) -> string, i: nat)
    requires i < 16 && slot == Api.SlotAt(date, toIso, i)
    ensures Clock.FormatTime(now, slot.time) == Some(Clock.ClockLabel(9 + i / 2, i % 2 * 30))
  {
    Clock.FormatTimeOfValid(now, 9 + i / 2, i % 2 * 30);
  }

  /** `v` shows generated slots, the k-th built at index idx[k]: the empty
      view when there are none, and otherwise one button per slot, in order,
      selecting that slot and captioned with its 12-hour time. */
  predicate ShowsGenerated(v: GridView, slots: seq<TimeSlot>, idx: seq<nat>, date: string, toIso: (int, int) -> string) {
    (slots == [] ==> v == NoAvailabilityView)
    && (slots != [] ==>
          v.Grid? && |v.buttons| == |idx|
          && forall k :: 0 <= k < |idx| ==>
               idx[k] < 16 && v.buttons[k].selects == Api.SlotAt(date, toIso, idx[k])
               && v.buttons[k].caption == Clock.ClockLabel(9 + idx[k] / 2, idx[k] % 2 * 30))
  }

  /** A list of generated slots, the k-th built at index idx[k], renders as
      ShowsGenerated says. */
  lemma {:induction false} GridOfGenerated(now: Clock.MinuteOfDay, slots: seq<TimeSlot>, idx: seq<nat>, date: string, toIso: (int, int) -> string)
    requires |slots| == |idx|
    requires forall k :: 0 <= k < |idx| ==> idx[k] < 16 && slots[k] == Api.SlotAt(date, toIso, idx[k])
    ensures ShowsGenerated(Render(now, slots, false), slots, idx, date, toIso)
  {
    forall k | 0 <= k < |idx|
      ensures Clock.FormatTime(now, slots[k].time) == Some(Clock.ClockLabel(9 + idx[k] / 2, idx[k] % 2 * 30))
    {
      MockSlotCaption(now, slots[k], date, toIso, idx[k]);
    }
  }

  /** Whatever the fetch returns when it falls back to the mock data (an HTML
      page, any error), the grid never throws: it is empty when the random
      filter drops every slot, and otherwise shows one button per kept slot,
      in generated order, labelled with that slot's 12-hour time. */
  lemma {:induction false} MockSlotsRender(now: Clock.MinuteOfDay, date: string, toIso: (int, int) -> string, keep: nat -> bool)
    ensures var slots := Api.KeepWhere(Api.MockSlots(date, toIso), keep);
      ShowsGenerated(Render(now, slots, false), slots, Api.KeptIndices(16, keep), date, toIso)
  {
    Api.KeptMockSlots(date, toIso, keep);
    GridOfGenerated(now, Api.KeepWhere(Api.MockSlots(date, toIso), keep), Api.KeptIndices(16, keep), date, toIso);
  }
}
