/** The state of the date-time picker component as a value, and each of its operations as a
    function from the old state to the new one. The class in module DateTimePickerComponent
    runs the same operations in place and is proved to agree with these functions; the
    properties of the widget are proved here, about the functions. */
module PickerSpec {
  import opened Wrappers
  import opened JsDate

  /** One call of a callback registered by the hosting form. */
  datatype Notification = ValueChanged(value: DateTime) | Touched

  /** The component's fields; `log` records the calls of `onChange` and `onTouched`. */
  datatype Picker = Picker(
    dateTimeValue: DateTime,
    allDay: bool,
    timeList: seq<Time>,
    displayedTimeList: seq<Time>,
    selectedTime: Option<Time>,
    isAM: bool,
    previousTime: Option<Time>,
    log: seq<Notification>)

  /** The state right after construction, `now` being the clock's `new Date()`. */
  function Initial(now: DateTime): Picker {
    Picker(now, false, [], [], None, true, None, [])
  }

  // ---------------------------------------------------------------------------
  // The 48 half-hour slots

  /** `base.setMinutes(base.getMinutes() + 30)`: thirty minutes later, carrying into the hour. */
  function Advance30(t: Time): Time {
    if t.minute + 30 < 60 then Time(t.hour, t.minute + 30)
    else Time(t.hour + 1, t.minute + 30 - 60)
  }

  /** The value of `base` after `i` advances from 00:00: `i` half hours past midnight. */
  function SlotAt(i: nat): Time {
    Time(i / 2, (i % 2) * 30)
  }

  /** What `ngOnInit` appends to `timeList`: the 48 values of `base` it pushes. */
  function HalfHourSlots(): (s: seq<Time>)
    ensures |s| == 48
  {
    seq(48, i requires 0 <= i => SlotAt(i))
  }

  /** One turn of the slot loop moves `base` to the next slot. */
  lemma Advance30SlotAt(i: nat)
    ensures Advance30(SlotAt(i)) == SlotAt(i + 1)
  {
    if i % 2 == 0 {
      assert (i + 1) / 2 == i / 2 && (i + 1) % 2 == 1;
    } else {
      assert (i + 1) / 2 == i / 2 + 1 && (i + 1) % 2 == 0;
    }
  }

  predicate OnHalfHour(t: Time) {
    t.minute == 0 || t.minute == 30
  }

  /** The slot list is 00:00, 00:30, ..., 23:30: entry `i` is `30 * i` minutes past midnight. */
  lemma HalfHourSlotsSpacing()
    ensures |HalfHourSlots()| == 48
    ensures forall i :: 0 <= i < 48 ==>
      ValidTime(HalfHourSlots()[i]) && OnHalfHour(HalfHourSlots()[i]) &&
      MinuteOfDay(HalfHourSlots()[i]) == 30 * i
  {
    forall i | 0 <= i < 48
      ensures ValidTime(HalfHourSlots()[i]) && OnHalfHour(HalfHourSlots()[i]) &&
              MinuteOfDay(HalfHourSlots()[i]) == 30 * i
    {
      assert HalfHourSlots()[i] == SlotAt(i);
      assert i == 2 * (i / 2) + i % 2;
    }
  }

  /** Each slot sits at index `2 * hour + minute / 30`. */
  lemma SlotIndex(t: Time)
    requires ValidTime(t) && OnHalfHour(t)
    ensures 0 <= 2 * t.hour + t.minute / 30 < 48
    ensures HalfHourSlots()[2 * t.hour + t.minute / 30] == t
  {
    HalfHourSlotsSpacing();
    var i := 2 * t.hour + t.minute / 30;
    var s := HalfHourSlots()[i];
    assert MinuteOfDay(s) == MinuteOfDay(t);
  }

  // ---------------------------------------------------------------------------
  // The AM/PM filter

  /** The filter predicate: `hour < 12` in AM mode, `hour >= 12` in PM mode. */
  predicate InHalf(t: Time, am: bool) {
    if am then t.hour < 12 else t.hour >= 12
  }

  /** `list.filter(t => InHalf(t, am))`: the entries of the active half, in their order. */
  function Filter(list: seq<Time>, am: bool): (r: seq<Time>)
    ensures |r| <= |list|
    decreases |list|
  {
    if list == [] then []
    else (if InHalf(list[0], am) then [list[0]] else []) + Filter(list[1..], am)
  }

  /** A time is displayed exactly when it is listed and lies in the active half. */
  lemma {:induction false} FilterMembers(list: seq<Time>, am: bool, t: Time)
    ensures t in Filter(list, am) <==> t in list && InHalf(t, am)
    decreases |list|
  {
    if list != [] {
      FilterMembers(list[1..], am, t);
      assert list == [list[0]] + list[1..];
    }
  }

  lemma {:induction false} FilterAppend(a: seq<Time>, b: seq<Time>, am: bool)
    ensures Filter(a + b, am) == Filter(a, am) + Filter(b, am)
    decreases |a|
  {
    if a == [] {
      assert a + b == b;
    } else {
      assert (a + b)[0] == a[0];
      assert (a + b)[1..] == a[1..] + b;
      FilterAppend(a[1..], b, am);
      var head := if InHalf(a[0], am) then [a[0]] else [];
      assert Filter(a + b, am) == head + Filter(a[1..] + b, am);
      assert Filter(a, am) == head + Filter(a[1..], am);
    }
  }

  lemma {:induction false} FilterKeepsAll(list: seq<Time>, am: bool)
    requires forall i :: 0 <= i < |list| ==> InHalf(list[i], am)
    ensures Filter(list, am) == list
    decreases |list|
  {
    if list != [] {
      FilterKeepsAll(list[1..], am);
    }
  }

  lemma {:induction false} FilterDropsAll(list: seq<Time>, am: bool)
    requires forall i :: 0 <= i < |list| ==> !InHalf(list[i], am)
    ensures Filter(list, am) == []
    decreases |list|
  {
    if list != [] {
      FilterDropsAll(list[1..], am);
    }
  }

  /** Over the 48 slots, AM mode shows the first 24 (from 00:00) and PM mode the last 24
      (from 12:00). */
  lemma FilterHalfHourSlots()
    ensures Filter(HalfHourSlots(), true) == HalfHourSlots()[..24]
    ensures Filter(HalfHourSlots(), false) == HalfHourSlots()[24..]
    ensures |HalfHourSlots()[..24]| == 24 && HalfHourSlots()[0] == Time(0, 0)
    ensures |HalfHourSlots()[24..]| == 24 && HalfHourSlots()[24] == Time(12, 0)
  {
    var s := HalfHourSlots();
    var am, pm := s[..24], s[24..];
    assert s == am + pm;
    SlotHalves();
    FilterAppend(am, pm, true);
    FilterAppend(am, pm, false);
    FilterKeepsAll(am, true);
    FilterDropsAll(pm, true);
    FilterDropsAll(am, false);
    FilterKeepsAll(pm, false);
    assert am + [] == am;
    assert [] + pm == pm;
  }

  /** The first 24 slots are before noon, the last 24 from noon on. */
  lemma SlotHalves()
    ensures forall i :: 0 <= i < 24 ==> InHalf(HalfHourSlots()[..24][i], true)
    ensures forall i :: 0 <= i < 24 ==> !InHalf(HalfHourSlots()[24..][i], true)
    ensures HalfHourSlots()[0] == Time(0, 0) && HalfHourSlots()[24] == Time(12, 0)
  {
    var s := HalfHourSlots();
    forall i | 0 <= i < 24
      ensures InHalf(s[..24][i], true) && !InHalf(s[24..][i], true)
    {
      assert s[..24][i] == SlotAt(i);
      assert s[24..][i] == SlotAt(i + 24);
    }
    assert s[24] == SlotAt(24);
  }

  /** A valid time is offered in a mode exactly when it is on the half hour and in that half. */
  lemma SlotDisplayed(t: Time, am: bool)
    requires ValidTime(t)
    ensures t in Filter(HalfHourSlots(), am) <==> OnHalfHour(t) && InHalf(t, am)
  {
    FilterMembers(HalfHourSlots(), am, t);
    HalfHourSlotsSpacing();
    if OnHalfHour(t) {
      SlotIndex(t);
    }
  }

  /** `list.find(t => t.getHours() === hour && t.getMinutes() === minute)`. */
  function FindSlot(list: seq<Time>, hour: int, minute: int): (r: Option<Time>)
    ensures r.Some? <==> Time(hour, minute) in list
    ensures r.Some? ==> r.value == Time(hour, minute)
    decreases |list|
  {
    if list == [] then None
    else if list[0].hour == hour && list[0].minute == minute then Some(list[0])
    else FindSlot(list[1..], hour, minute)
  }

  // ---------------------------------------------------------------------------
  // The operations

  /** `combineDateAndTime(time)`: the current day at `time`, then both callbacks. */
  function CombineDateAndTime(p: Picker, time: Time): Picker {
    var v := WithTime(p.dateTimeValue, time);
    p.(dateTimeValue := v, log := p.log + [ValueChanged(v), Touched])
  }

  /** `filterTimeList()`: recompute the displayed half, drop a selection from the other
      half, and select and combine the first displayed slot when nothing is selected. */
  function FilterTimeList(p: Picker): Picker {
    var shown := Filter(p.timeList, p.isAM);
    var p1 := p.(displayedTimeList := shown);
    var p2 := if p1.selectedTime.Some? && !InHalf(p1.selectedTime.value, p1.isAM)
              then p1.(selectedTime := None) else p1;
    if p2.selectedTime.None? && |shown| > 0
    then CombineDateAndTime(p2.(selectedTime := Some(shown[0])), shown[0])
    else p2
  }

  /** `ngOnInit()`: push the 48 slots, then filter. */
  function NgOnInit(p: Picker): Picker {
    FilterTimeList(p.(timeList := p.timeList + HalfHourSlots()))
  }

  /** `onAllDayChange()`, run after the template has set `allDay`. */
  function OnAllDayChange(p: Picker): Picker {
    if p.allDay then
      var v := StartOfDay(p.dateTimeValue);
      p.(previousTime := p.selectedTime, dateTimeValue := v, selectedTime := None,
         log := p.log + [ValueChanged(v), Touched])
    else
      var t := if p.previousTime.Some? then p.previousTime.value else Time(0, 0);
      var p1 := CombineDateAndTime(p.(selectedTime := Some(t)), t);
      p1.(log := p1.log + [ValueChanged(p1.dateTimeValue), Touched])
  }

  /** The first half of `setAM()`: in PM mode, a selection from 12:00 on moves twelve hours
      back and is combined. */
  function ShiftToAM(p: Picker): Picker {
    if !p.isAM && p.selectedTime.Some? && p.selectedTime.value.hour >= 12 then
      var t := Time(p.selectedTime.value.hour - 12, p.selectedTime.value.minute);
      CombineDateAndTime(p.(selectedTime := Some(t)), t)
    else p
  }

  /** `setAM()`: a PM selection moves twelve hours back, then AM mode is filtered. */
  function SetAM(p: Picker): Picker {
    FilterTimeList(ShiftToAM(p).(isAM := true))
  }

  /** The first half of `setPM()`: in AM mode, a selection before 12:00 moves twelve hours
      on and is combined. */
  function ShiftToPM(p: Picker): Picker {
    if p.isAM && p.selectedTime.Some? && p.selectedTime.value.hour < 12 then
      var t := Time(p.selectedTime.value.hour + 12, p.selectedTime.value.minute);
      CombineDateAndTime(p.(selectedTime := Some(t)), t)
    else p
  }

  /** `setPM()`: an AM selection moves twelve hours on, then PM mode is filtered. */
  function SetPM(p: Picker): Picker {
    FilterTimeList(ShiftToPM(p).(isAM := false))
  }

  /** `onTimeDropdownChange(value)`. */
  function OnTimeDropdownChange(p: Picker, value: Time): Picker {
    CombineDateAndTime(p.(selectedTime := Some(value)), value)
  }

  /** `onDateTimeChange(date)`: the picked day at the current time, then both callbacks. */
  function OnDateTimeChange(p: Picker, date: DateTime): Picker {
    var v := WithDay(p.dateTimeValue, date);
    p.(dateTimeValue := v, log := p.log + [ValueChanged(v), Touched])
  }

  /** `writeValue(value)`: adopt the value, take the mode from its hour, filter (which may
      select and combine the first slot), then select the displayed slot equal to the value's
      time, if any. */
  function WriteValue(p: Picker, value: Option<DateTime>): Picker {
    match value
    case None => p
    case Some(v) =>
      var p1 := FilterTimeList(p.(dateTimeValue := v, isAM := v.hour < 12));
      p1.(selectedTime := FindSlot(p1.displayedTimeList, v.hour, v.minute))
  }

  // ---------------------------------------------------------------------------
  // The state invariant

  predicate AllValid(list: seq<Time>) {
    forall i :: 0 <= i < |list| ==> ValidTime(list[i])
  }

  predicate ValidOption(t: Option<Time>) {
    t.Some? ==> ValidTime(t.value)
  }

  /** Every field holds what a `Date` can hold, and the displayed list is the filter of the
      full list for the current mode. */
  predicate Valid(p: Picker) {
    ValidDateTime(p.dateTimeValue) && AllValid(p.timeList) &&
    p.displayedTimeList == Filter(p.timeList, p.isAM) &&
    ValidOption(p.selectedTime) && ValidOption(p.previousTime)
  }

  lemma {:induction false} FilterAllValid(list: seq<Time>, am: bool)
    requires AllValid(list)
    ensures AllValid(Filter(list, am))
  {
    forall i | 0 <= i < |Filter(list, am)|
      ensures ValidTime(Filter(list, am)[i])
    {
      FilterMembers(list, am, Filter(list, am)[i]);
    }
  }

  lemma FilterTimeListValid(p: Picker)
    requires ValidDateTime(p.dateTimeValue) && AllValid(p.timeList)
    requires ValidOption(p.selectedTime) && ValidOption(p.previousTime)
    ensures Valid(FilterTimeList(p))
  {
    FilterAllValid(p.timeList, p.isAM);
  }

  /** Each operation keeps the invariant, given inputs a `Date` can hold. */
  lemma NgOnInitKeepsValid(p: Picker)
    requires Valid(p)
    ensures Valid(NgOnInit(p))
  {
    HalfHourSlotsSpacing();
    assert AllValid(p.timeList + HalfHourSlots());
    FilterTimeListValid(p.(timeList := p.timeList + HalfHourSlots()));
  }

  lemma OnAllDayChangeKeepsValid(p: Picker)
    requires Valid(p)
    ensures Valid(OnAllDayChange(p))
  {
  }

  lemma SetAMKeepsValid(p: Picker)
    requires Valid(p)
    ensures Valid(SetAM(p))
  {
    FilterTimeListValid(ShiftToAM(p).(isAM := true));
  }

  lemma SetPMKeepsValid(p: Picker)
    requires Valid(p)
    ensures Valid(SetPM(p))
  {
    FilterTimeListValid(ShiftToPM(p).(isAM := false));
  }

  lemma OnTimeDropdownChangeKeepsValid(p: Picker, time: Time)
    requires Valid(p) && ValidTime(time)
    ensures Valid(OnTimeDropdownChange(p, time))
  {
  }

  lemma OnDateTimeChangeKeepsValid(p: Picker, date: DateTime)
    requires Valid(p) && ValidDateTime(date)
    ensures Valid(OnDateTimeChange(p, date))
  {
  }

  lemma WriteValueKeepsValid(p: Picker, value: Option<DateTime>)
    requires Valid(p)
    requires value.Some? ==> ValidDateTime(value.value)
    ensures Valid(WriteValue(p, value))
  {
    if value.Some? {
      var v := value.value;
      var p1 := FilterTimeList(p.(dateTimeValue := v, isAM := v.hour < 12));
      FilterTimeListValid(p.(dateTimeValue := v, isAM := v.hour < 12));
      var found := FindSlot(p1.displayedTimeList, v.hour, v.minute);
      if found.Some? {
        FilterMembers(p1.timeList, p1.isAM, found.value);
      }
    }
  }

  // ---------------------------------------------------------------------------
  // Properties of the operations

  /** After filtering, the displayed list is the active half of the full list, and when it is
      not empty a slot of that half is selected: the old selection if it lay in the half
      (state otherwise untouched), else the first displayed slot, combined into the value. */
  lemma FilterTimeListSelects(p: Picker)
    ensures FilterTimeList(p).displayedTimeList == Filter(p.timeList, p.isAM)
    ensures FilterTimeList(p).isAM == p.isAM && FilterTimeList(p).timeList == p.timeList
    ensures |Filter(p.timeList, p.isAM)| > 0 ==>
      FilterTimeList(p).selectedTime.Some? &&
      InHalf(FilterTimeList(p).selectedTime.value, p.isAM)
    ensures p.selectedTime.Some? && InHalf(p.selectedTime.value, p.isAM) ==>
      FilterTimeList(p) == p.(displayedTimeList := Filter(p.timeList, p.isAM))
    ensures (p.selectedTime.None? || !InHalf(p.selectedTime.value, p.isAM)) ==>
      var shown := Filter(p.timeList, p.isAM);
      if |shown| > 0 then
        FilterTimeList(p).selectedTime == Some(shown[0]) &&
        FilterTimeList(p).dateTimeValue == WithTime(p.dateTimeValue, shown[0])
      else
        FilterTimeList(p).selectedTime == None &&
        FilterTimeList(p).dateTimeValue == p.dateTimeValue
  {
    var shown := Filter(p.timeList, p.isAM);
    if |shown| > 0 {
      FilterMembers(p.timeList, p.isAM, shown[0]);
    }
  }

  /** `ngOnInit` on a fresh component lists the 48 slots, shows the AM half and selects
      00:00, moving the value to midnight of its day. */
  lemma NgOnInitFresh(now: DateTime)
    ensures NgOnInit(Initial(now)).timeList == HalfHourSlots()
    ensures NgOnInit(Initial(now)).displayedTimeList == HalfHourSlots()[..24]
    ensures NgOnInit(Initial(now)).selectedTime == Some(Time(0, 0))
    ensures NgOnInit(Initial(now)).dateTimeValue == StartOfDay(now)
  {
    var p := Initial(now);
    var p0 := p.(timeList := HalfHourSlots());
    assert p.timeList + HalfHourSlots() == HalfHourSlots();
    assert NgOnInit(p) == FilterTimeList(p0);
    FilterHalfHourSlots();
    var shown := HalfHourSlots()[..24];
    assert shown[0] == Time(0, 0);
    assert FilterTimeList(p0) ==
      CombineDateAndTime(p0.(displayedTimeList := shown, selectedTime := Some(shown[0])), shown[0]);
  }

  /** `setPM` from AM mode with a morning selection `h:m` selects `(h+12):m` and sets the value's
      time to it; without that shift it is filtering in PM mode. Either way PM mode is on. */
  lemma SetPMShifts(p: Picker)
    requires ValidOption(p.selectedTime)
    ensures !SetPM(p).isAM
    ensures p.isAM && p.selectedTime.Some? && p.selectedTime.value.hour < 12 ==>
      var t := Time(p.selectedTime.value.hour + 12, p.selectedTime.value.minute);
      SetPM(p).selectedTime == Some(t) && SetPM(p).dateTimeValue == WithTime(p.dateTimeValue, t)
    ensures !(p.isAM && p.selectedTime.Some? && p.selectedTime.value.hour < 12) ==>
      SetPM(p) == FilterTimeList(p.(isAM := false))
  {
    if p.isAM && p.selectedTime.Some? && p.selectedTime.value.hour < 12 {
      var t := Time(p.selectedTime.value.hour + 12, p.selectedTime.value.minute);
      var q := CombineDateAndTime(p.(selectedTime := Some(t)), t).(isAM := false);
      assert SetPM(p) == FilterTimeList(q);
      FilterTimeListSelects(q);
      assert q.selectedTime == Some(t) && InHalf(t, false);
    }
  }

  /** `setAM` from PM mode with an afternoon selection `h:m` selects `(h-12):m` and sets the
      value's time to it; without that shift it is filtering in AM mode. Either way AM mode is on. */
  lemma SetAMShifts(p: Picker)
    requires ValidOption(p.selectedTime)
    ensures SetAM(p).isAM
    ensures !p.isAM && p.selectedTime.Some? && p.selectedTime.value.hour >= 12 ==>
      var t := Time(p.selectedTime.value.hour - 12, p.selectedTime.value.minute);
      SetAM(p).selectedTime == Some(t) && SetAM(p).dateTimeValue == WithTime(p.dateTimeValue, t)
    ensures !(!p.isAM && p.selectedTime.Some? && p.selectedTime.value.hour >= 12) ==>
      SetAM(p) == FilterTimeList(p.(isAM := true))
  {
    if !p.isAM && p.selectedTime.Some? && p.selectedTime.value.hour >= 12 {
      var t := Time(p.selectedTime.value.hour - 12, p.selectedTime.value.minute);
      var q := CombineDateAndTime(p.(selectedTime := Some(t)), t).(isAM := true);
      assert SetAM(p) == FilterTimeList(q);
      FilterTimeListSelects(q);
      assert q.selectedTime == Some(t) && InHalf(t, true);
    }
  }

  /** Switching to PM and back to AM returns a morning selection and the value's time of day
      to where they were. */
  lemma SetPMThenSetAM(p: Picker)
    requires p.isAM && p.selectedTime.Some? && ValidTime(p.selectedTime.value)
    requires p.selectedTime.value.hour < 12
    ensures SetAM(SetPM(p)).isAM
    ensures SetAM(SetPM(p)).selectedTime == p.selectedTime
    ensures SetAM(SetPM(p)).dateTimeValue == WithTime(p.dateTimeValue, p.selectedTime.value)
  {
    SetPMShifts(p);
    SetAMShifts(SetPM(p));
  }

  /** With the 48 slots listed and any selection on the half hour, `setPM` leaves a selected
      slot that is displayed: a morning selection moves into the afternoon, an afternoon one
      stays, and without one the first afternoon slot is chosen. */
  lemma SetPMSelectionDisplayed(p: Picker)
    requires p.timeList == HalfHourSlots()
    requires p.selectedTime.Some? ==>
      ValidTime(p.selectedTime.value) && OnHalfHour(p.selectedTime.value)
    ensures SetPM(p).selectedTime.Some?
    ensures SetPM(p).selectedTime.value in SetPM(p).displayedTimeList
  {
    var q := ShiftToPM(p).(isAM := false);
    FilterTimeListSelects(q);
    FilterHalfHourSlots();
    if q.selectedTime.Some? && InHalf(q.selectedTime.value, false) {
      SlotDisplayed(q.selectedTime.value, false);
    }
  }

  /** 21:15 is not on the half hour, so PM mode over the 48 slots does not display it. */
  lemma QuarterPastNineNotDisplayed()
    ensures Time(21, 15) !in Filter(HalfHourSlots(), false)
  {
    SlotDisplayed(Time(21, 15), false);
  }

  /** The half-hour condition is needed: a dropdown time such as 09:15 moves to 21:15 under
      `setPM`, and 21:15 is not a slot, so the selection is not displayed. */
  lemma SetPMOffHalfHour(p: Picker)
    requires p.timeList == HalfHourSlots() && p.isAM && p.selectedTime == Some(Time(9, 15))
    ensures SetPM(p).selectedTime == Some(Time(21, 15))
    ensures Time(21, 15) !in SetPM(p).displayedTimeList
  {
    var q := ShiftToPM(p).(isAM := false);
    assert q.selectedTime == Some(Time(21, 15)) && q.timeList == HalfHourSlots();
    FilterTimeListSelects(q);
    assert SetPM(p) == q.(displayedTimeList := Filter(HalfHourSlots(), false));
    QuarterPastNineNotDisplayed();
  }

  /** The same for `setAM`: the selection ends on a displayed morning slot. */
  lemma SetAMSelectionDisplayed(p: Picker)
    requires p.timeList == HalfHourSlots()
    requires p.selectedTime.Some? ==>
      ValidTime(p.selectedTime.value) && OnHalfHour(p.selectedTime.value)
    ensures SetAM(p).selectedTime.Some?
    ensures SetAM(p).selectedTime.value in SetAM(p).displayedTimeList
  {
    var q := ShiftToAM(p).(isAM := true);
    FilterTimeListSelects(q);
    FilterHalfHourSlots();
    if q.selectedTime.Some? && InHalf(q.selectedTime.value, true) {
      SlotDisplayed(q.selectedTime.value, true);
    }
  }

  /** All-day mode does not hold the time at 00:00: turning all-day on clears the selection,
      and a following `setPM` over the 48 slots selects 12:00 and sets the value's time to it,
      while `allDay` stays on. */
  lemma AllDayThenSetPM(p: Picker)
    requires p.allDay && p.timeList == HalfHourSlots()
    ensures SetPM(OnAllDayChange(p)).allDay
    ensures SetPM(OnAllDayChange(p)).selectedTime == Some(Time(12, 0))
    ensures SetPM(OnAllDayChange(p)).dateTimeValue == WithTime(p.dateTimeValue, Time(12, 0))
  {
    var q := OnAllDayChange(p);
    assert q.selectedTime.None? && q.allDay && q.timeList == HalfHourSlots();
    assert ShiftToPM(q) == q;
    var r := q.(isAM := false);
    FilterHalfHourSlots();
    FilterTimeListSelects(r);
    var shown := Filter(HalfHourSlots(), false);
    assert |shown| > 0 && shown[0] == Time(12, 0);
    assert SetPM(q).dateTimeValue == WithTime(q.dateTimeValue, Time(12, 0));
  }

  /** Merging a time into the value and merging it again is merging it once; the day never
      moves. */
  lemma CombineDateAndTimeIdempotent(p: Picker, t: Time)
    ensures CombineDateAndTime(CombineDateAndTime(p, t), t).dateTimeValue ==
            CombineDateAndTime(p, t).dateTimeValue
    ensures DayOf(CombineDateAndTime(p, t).dateTimeValue) == DayOf(p.dateTimeValue)
    ensures TimeOf(CombineDateAndTime(p, t).dateTimeValue) == t
  {
    WithTimeIdempotent(p.dateTimeValue, t);
  }

  /** Picking a day keeps the time of day; picking a day and picking a time commute. */
  lemma OnDateTimeChangeKeepsTime(p: Picker, date: DateTime, t: Time)
    ensures DayOf(OnDateTimeChange(p, date).dateTimeValue) == DayOf(date)
    ensures TimeOf(OnDateTimeChange(p, date).dateTimeValue) == TimeOf(p.dateTimeValue)
    ensures OnTimeDropdownChange(OnDateTimeChange(p, date), t).dateTimeValue ==
            OnDateTimeChange(OnTimeDropdownChange(p, t), date).dateTimeValue
  {
    WithTimeWithDayCommute(p.dateTimeValue, t, date);
  }

  /** Choosing a time in the dropdown selects it and moves the value to that time on the same
      day, and the form hears of the new value. */
  lemma OnTimeDropdownChangeSelects(p: Picker, value: Time)
    ensures OnTimeDropdownChange(p, value).selectedTime == Some(value)
    ensures DayOf(OnTimeDropdownChange(p, value).dateTimeValue) == DayOf(p.dateTimeValue)
    ensures TimeOf(OnTimeDropdownChange(p, value).dateTimeValue) == value
    ensures Notified(p, OnTimeDropdownChange(p, value))
  {
  }

  /** `q` came from `p` by calls that ended with `onChange(q.dateTimeValue)` and `onTouched()`. */
  predicate Notified(p: Picker, q: Picker) {
    |q.log| >= |p.log| + 2 && q.log[..|p.log|] == p.log &&
    q.log[|q.log| - 2..] == [ValueChanged(q.dateTimeValue), Touched]
  }

  /** Either nothing was said and the value did not move, or the form was told the new value. */
  predicate SilentOrNotified(p: Picker, q: Picker) {
    (q.log == p.log && q.dateTimeValue == p.dateTimeValue) || Notified(p, q)
  }

  lemma NotifiedTrans(p: Picker, q: Picker, r: Picker)
    requires SilentOrNotified(p, q) && Notified(q, r)
    ensures Notified(p, r)
  {
    assert r.log[..|p.log|] == r.log[..|q.log|][..|p.log|];
  }

  lemma FilterTimeListSilentOrNotified(p: Picker)
    ensures SilentOrNotified(p, FilterTimeList(p))
  {
  }

  /** The all-day toggle, a dropdown time and a calendar day always end by telling the host
      form the value they leave. */
  lemma UserEditsNotify(p: Picker, time: Time, date: DateTime)
    ensures Notified(p, OnAllDayChange(p))
    ensures Notified(p, OnTimeDropdownChange(p, time))
    ensures Notified(p, OnDateTimeChange(p, date))
  {
    if !p.allDay {
      var t := if p.previousTime.Some? then p.previousTime.value else Time(0, 0);
      var p1 := CombineDateAndTime(p.(selectedTime := Some(t)), t);
      NotifiedTrans(p, p1, OnAllDayChange(p));
    }
  }

  /** Filtering after an optional shift: silent when neither moved the value, else reporting. */
  lemma ShiftThenFilter(p: Picker, p1: Picker)
    requires SilentOrNotified(p, p1)
    ensures SilentOrNotified(p, FilterTimeList(p1))
  {
    FilterTimeListSilentOrNotified(p1);
    if FilterTimeList(p1).log != p1.log {
      NotifiedTrans(p, p1, FilterTimeList(p1));
    }
  }

  /** `setAM` reports the value whenever it moved it, and is silent otherwise. */
  lemma SetAMSilentOrNotified(p: Picker)
    ensures SilentOrNotified(p, SetAM(p))
  {
    ShiftThenFilter(p, ShiftToAM(p).(isAM := true));
  }

  /** `setPM` reports the value whenever it moved it, and is silent otherwise. */
  lemma SetPMSilentOrNotified(p: Picker)
    ensures SilentOrNotified(p, SetPM(p))
  {
    ShiftThenFilter(p, ShiftToPM(p).(isAM := false));
  }

  /** Turning all-day on saves the selection, moves the value to midnight of its day and clears
      the selection; turning it off again restores the saved selection and the value's time
      of day, or falls back to 00:00 when nothing was selected. */
  lemma AllDayRoundTrip(p: Picker)
    requires p.allDay
    ensures OnAllDayChange(p).previousTime == p.selectedTime
    ensures OnAllDayChange(p).selectedTime == None
    ensures OnAllDayChange(p).dateTimeValue == StartOfDay(p.dateTimeValue)
    ensures var q := OnAllDayChange(OnAllDayChange(p).(allDay := false));
      var t := if p.selectedTime.Some? then p.selectedTime.value else Time(0, 0);
      q.selectedTime == Some(t) &&
      q.dateTimeValue == WithTime(p.dateTimeValue, t) &&
      q.isAM == p.isAM && q.displayedTimeList == p.displayedTimeList
  {
  }

  /** When the selection was the value's own time (seconds clear), the all-day round trip
      gives back exactly the value it started from. */
  lemma AllDayRoundTripExact(p: Picker)
    requires p.allDay && p.selectedTime == Some(TimeOf(p.dateTimeValue))
    requires p.dateTimeValue.second == 0
    ensures OnAllDayChange(OnAllDayChange(p).(allDay := false)).dateTimeValue == p.dateTimeValue
    ensures OnAllDayChange(OnAllDayChange(p).(allDay := false)).selectedTime == p.selectedTime
  {
    AllDayRoundTrip(p);
    WithTimeOfSelf(p.dateTimeValue);
  }

  /** `writeValue(null)` changes nothing. For a value: the mode follows its hour, and the
      selection ends as the displayed slot equal to its time of day, or nothing; no default
      slot is chosen after that lookup. */
  lemma WriteValueSelects(p: Picker, value: Option<DateTime>)
    ensures value.None? ==> WriteValue(p, value) == p
    ensures value.Some? ==>
      var v := value.value;
      var q := WriteValue(p, value);
      q.isAM == (v.hour < 12) &&
      q.displayedTimeList == Filter(p.timeList, v.hour < 12) &&
      (q.selectedTime == if TimeOf(v) in q.displayedTimeList then Some(TimeOf(v)) else None)
  {
  }

  /** With the 48 slots in place, `writeValue(v)` selects `v`'s time exactly when it is on the
      half hour. Its value keeps `v` only when the old selection was in `v`'s half; otherwise
      filtering first selects the half's first slot and overwrites the value's time with 00:00
      or 12:00, and the later lookup does not undo that. */
  lemma WriteValueOverSlots(p: Picker, v: DateTime)
    requires p.timeList == HalfHourSlots() && ValidDateTime(v)
    ensures var q := WriteValue(p, Some(v));
      (q.selectedTime == if OnHalfHour(TimeOf(v)) then Some(TimeOf(v)) else None) &&
      (q.dateTimeValue ==
        if p.selectedTime.Some? && InHalf(p.selectedTime.value, v.hour < 12) then v
        else WithTime(v, Time(if v.hour < 12 then 0 else 12, 0)))
  {
    var am := v.hour < 12;
    FilterHalfHourSlots();
    SlotDisplayed(TimeOf(v), am);
    FilterTimeListSelects(p.(dateTimeValue := v, isAM := am));
  }

  /** With the 48 slots in place, `writeValue(v)` reports to the form exactly when the old
      selection is not in `v`'s half: filtering then selects and combines the half's first slot,
      which calls `onChange` and `onTouched` once each. Otherwise it is silent. */
  lemma WriteValueReports(p: Picker, v: DateTime)
    requires p.timeList == HalfHourSlots()
    ensures var q := WriteValue(p, Some(v));
      q.log == if p.selectedTime.Some? && InHalf(p.selectedTime.value, v.hour < 12) then p.log
               else p.log + [ValueChanged(q.dateTimeValue), Touched]
  {
    var p0 := p.(dateTimeValue := v, isAM := v.hour < 12);
    FilterHalfHourSlots();
    if !(p.selectedTime.Some? && InHalf(p.selectedTime.value, v.hour < 12)) {
      var shown := Filter(p0.timeList, p0.isAM);
      assert |shown| == 24;
      var p2 := p0.(displayedTimeList := shown, selectedTime := None);
      assert FilterTimeList(p0) == CombineDateAndTime(p2.(selectedTime := Some(shown[0])), shown[0]);
    }
  }

  /** Writing a value at 12:00 while 09:00 is selected in AM mode keeps the value as written,
      yet the form is told of it: filtering selects 12:00 and rebuilds the same value. */
  lemma WriteNoonFromMorning(p: Picker, v: DateTime)
    requires p.timeList == HalfHourSlots() && p.isAM && p.selectedTime == Some(Time(9, 0))
    requires ValidDateTime(v) && v.hour == 12 && v.minute == 0 && v.second == 0
    ensures WriteValue(p, Some(v)).dateTimeValue == v
    ensures WriteValue(p, Some(v)).selectedTime == Some(Time(12, 0))
    ensures WriteValue(p, Some(v)).log == p.log + [ValueChanged(v), Touched]
  {
    WriteValueOverSlots(p, v);
    WriteValueReports(p, v);
    assert WithTime(v, Time(12, 0)) == v;
  }
}
