# Date-time picker and Vietnamese month-name pipe

This project models two pieces of an Angular application built on Kendo UI.

- **`DateTimePickerComponent`** is a form control that edits one date-time value.
  - It has a date picker and a time dropdown. The dropdown offers 48 half-hour slots, filtered to the morning (AM) or the afternoon (PM) half of the day.
  - It has an "all day" switch and AM/PM buttons.
  - It produces the labels for the calendar's decade and century views.
  - Through Angular's `ControlValueAccessor` protocol it reports every user edit to the form; a value the form writes in is adopted without a report unless filtering selects a default slot and combines it, which reports the value even when the combine leaves it as written.
- **`MonthNameViPipe`** (the `monthFormat` pipe) renders a Date, or a string such as `"Wed 3 2024"`, as a Vietnamese month name followed by the year (`"Tháng ba, 2024"`). It renders `"Không xác định"` ("unknown") when it cannot read its input.

Files:

- `js_date.dfy` (module `JsDate`)
  - Models the calendar fields of a JavaScript `Date` that the component reads and writes.
  - Defines the three ways the component rebuilds a Date: a new time, a new day, or midnight.
- `js_text.dfy` (module `JsText`)
  - Models `parseInt(s, 10)` and the decimal rendering of an integer.
  - Models `String.prototype.split` with a one-character separator, together with its inverse `Join`.
- `picker_spec.dfy` (module `PickerSpec`)
  - Holds the component's state as a record, `Picker`, and each operation as a function from the old state to the new one.
  - Holds the invariant `Valid` and the lemmas about the operations.
  - Each call of `onChange` / `onTouched` is appended to a log of `Notification`s, so "the form is told" can be stated.
- `datetimepicker.dfy` (module `DateTimePickerComponent`)
  - The class `DateTimePicker` has the component's fields and updates them in place.
  - `NgOnInit` builds the slot list with the source's 48-step loop.
  - Every method is proved to take its state to exactly the state the matching `PickerSpec` function gives, and to keep `Valid` (`CombineDateAndTime` and `OnTimeDropdownChange` for a valid time, `OnDateTimeChange` for a valid date, `WriteValue` for null or a valid Date).
  - The file also holds the decade/century labels and the `disabledDates` predicate.
  - Two scenario methods drive the class through a short sequence of user actions.
- `month_name_vi.dfy` (module `MonthNameVi`): the month table and `transform`.
- `wrappers.dfy`: `Option`.

Behaviours of the code worth knowing before reading the model:

- Initialization does not choose AM/PM from the current value.
  - `ngOnInit` leaves `isAM` at `true` whatever the value's hour, and filters the list.
  - Filtering selects the first morning slot, 00:00, and moves the value to midnight of its day (`PickerSpec.NgOnInitFresh`).
- The selected time is not always one of the displayed slots.
  - `onAllDayChange` restores the previous time, or falls back to 00:00, in either mode.
  - `onTimeDropdownChange` takes any time.
  - So `Valid` does not include "the selection is displayed".
  - Over the 48 slots, switching mode with `setAM` or `setPM` leaves a displayed slot selected when the selection, if any, is on the half hour (`PickerSpec.SetPMSelectionDisplayed`, `PickerSpec.SetAMSelectionDisplayed`). A selection off the half hour, such as 09:15 from the dropdown, moves to 21:15 under `setPM`, and 21:15 is not a displayed slot (`PickerSpec.SetPMOffHalfHour`).
- All-day mode does not pin the time to 00:00.
  - With all-day on, `setPM` selects 12:00 and moves the value's time to 12:00; `allDay` stays on (`PickerSpec.AllDayThenSetPM`).
- `writeValue` does more than adopt the value and look it up.
  - It filters first.
  - When the old selection is not in the new value's half of the day, filtering selects that half's first slot and overwrites the value's time with 00:00 or 12:00, before the lookup.
  - The lookup that follows selects the value's original time when it is on the half hour and nothing otherwise; it does not undo the overwrite.
  - `PickerSpec.WriteValueOverSlots` states the exact outcome, and `WriteValueScenario` shows one case.
  - That default selection is the only way `writeValue` notifies the form, and it notifies even when the value is already at 00:00 or 12:00 (`PickerSpec.WriteValueReports`, `PickerSpec.WriteNoonFromMorning`). Adopting the value itself is silent.
- The pipe splits on single spaces, not on runs of white space.
  - Two adjacent spaces make an empty piece.
  - The year is the third piece exactly as written.
  - Pieces after the third are ignored.

## Model

| member | source | states |
|---|---|---|
| JsDate.WithTime | src/app/in-app/in-config/pages/components/custom-calendar/datetimepicker.component.ts:156-165 | the rebuilt Date has the old day, the given hour and minute, and zero seconds; valid inputs give a valid Date |
| JsDate.WithDay | src/app/in-app/in-config/pages/components/custom-calendar/datetimepicker.component.ts:174-177 | the rebuilt Date has the chosen day, the old hour and minute, and zero seconds; valid inputs give a valid Date |
| JsDate.StartOfDay | src/app/in-app/in-config/pages/components/custom-calendar/datetimepicker.component.ts:74-75 | midnight of the same day, valid when the input is |
| JsDate.Before | src/app/in-app/in-config/pages/components/custom-calendar/datetimepicker.component.ts:62 | `a < b` on two Dates: chronological order, compared year, month, day, hour, minute, then second |
| JsText.ParseInt | src/app/in-app/in-config/pages/components/custom-calendar/datetimepicker.component.ts:193-194 | `parseInt` is `NaN` exactly when, after white space and a sign, the text does not start with a digit |
| JsText.NatToStringDigits | src/app/in-app/in-config/pages/components/custom-calendar/datetimepicker.component.ts:190 | the decimal rendering of a natural number is all digits, has no leading zero, and its digits are worth the number |
| JsText.IntToString | src/app/in-app/in-config/pages/components/custom-calendar/datetimepicker.component.ts:190 | the template literal's rendering of an integer: a minus sign for a negative number, then the digits of its magnitude; never empty, and `parseInt` reads it back (`JsText.ParseIntOfIntToString`) |
| JsText.ParseIntOfDigits | src/app/in-app/in-config/pages/components/custom-calendar/datetimepicker.component.ts:193 | `parseInt` of a run of digits followed by a non-digit (or nothing) is the value of the digits |
| JsText.ParseIntNegate | src/app/in-app/in-config/pages/components/custom-calendar/datetimepicker.component.ts:193 | a minus sign in front of a digit negates what `parseInt` reads |
| JsText.ParseIntOfIntToString | src/app/in-app/in-config/pages/components/custom-calendar/datetimepicker.component.ts:193 | `parseInt` reads back the rendering of any integer, whatever non-digit text follows it |
| JsText.ParseIntTrailingLetters | src/app/in-app/in-config/pages/components/custom-calendar/datetimepicker.component.ts:193 | `parseInt("2024abc")` is 2024 |
| JsText.ParseIntDecimalPoint | src/app/in-app/in-config/pages/components/custom-calendar/pipes/month-format-pipe/month-name-vi.pipe.ts:37 | `parseInt("3.5")` is 3 |
| JsText.ParseIntNoDigits | src/app/in-app/in-config/pages/components/custom-calendar/datetimepicker.component.ts:193-194 | `parseInt("bad-input")` is `NaN` |
| JsText.ParseIntSkipsSpace | src/app/in-app/in-config/pages/components/custom-calendar/datetimepicker.component.ts:193 | white space in front of the text does not change what `parseInt` reads |
| JsText.ParseIntPlus | src/app/in-app/in-config/pages/components/custom-calendar/datetimepicker.component.ts:193 | a plus sign in front of a digit does not change what `parseInt` reads |
| JsText.Join | src/app/in-app/in-config/pages/components/custom-calendar/pipes/month-format-pipe/month-name-vi.pipe.ts:34 | the pieces with the separator between neighbours; the inverse of `split` on separator-free pieces (`JsText.SplitJoin`, `JsText.JoinSplit`) |
| JsText.Split | src/app/in-app/in-config/pages/components/custom-calendar/pipes/month-format-pipe/month-name-vi.pipe.ts:34 | `split` gives at least one piece and no piece holds the separator |
| JsText.JoinSplit | src/app/in-app/in-config/pages/components/custom-calendar/pipes/month-format-pipe/month-name-vi.pipe.ts:34 | joining the pieces of a split with the separator gives back the text |
| JsText.SplitJoin | src/app/in-app/in-config/pages/components/custom-calendar/pipes/month-format-pipe/month-name-vi.pipe.ts:34 | splitting undoes joining for pieces without the separator |
| PickerSpec.Initial | src/app/in-app/in-config/pages/components/custom-calendar/datetimepicker.component.ts:23-29 | the field initialisers: the clock's current time as the value, not all day, empty lists, no selection, AM mode, no previous time, nothing logged |
| PickerSpec.Advance30 | src/app/in-app/in-config/pages/components/custom-calendar/datetimepicker.component.ts:51 | thirty minutes later, the minutes carrying into the hour at 60 |
| PickerSpec.HalfHourSlots | src/app/in-app/in-config/pages/components/custom-calendar/datetimepicker.component.ts:48-52 | the 48 values the loop pushes: slot i is i half hours after midnight |
| PickerSpec.Advance30SlotAt | src/app/in-app/in-config/pages/components/custom-calendar/datetimepicker.component.ts:51 | adding 30 minutes to slot i, with the carry into the hour, gives slot i+1 |
| PickerSpec.HalfHourSlotsSpacing | src/app/in-app/in-config/pages/components/custom-calendar/datetimepicker.component.ts:48-52 | there are 48 slots; slot i is a valid time on the half hour, 30*i minutes after midnight |
| PickerSpec.SlotIndex | src/app/in-app/in-config/pages/components/custom-calendar/datetimepicker.component.ts:48-52 | every valid time on the half hour is a slot, at index 2*hour + minute/30 |
| PickerSpec.Filter | src/app/in-app/in-config/pages/components/custom-calendar/datetimepicker.component.ts:127-129 | the entries of the list in the active half (hour before 12 in AM mode, from 12 in PM mode), in their order |
| PickerSpec.FilterMembers | src/app/in-app/in-config/pages/components/custom-calendar/datetimepicker.component.ts:127-129 | a time is displayed iff it is in the list and in the current half of the day |
| PickerSpec.FilterAppend | src/app/in-app/in-config/pages/components/custom-calendar/datetimepicker.component.ts:127-129 | filtering a concatenation filters each part |
| PickerSpec.FilterHalfHourSlots | src/app/in-app/in-config/pages/components/custom-calendar/datetimepicker.component.ts:127-129 | over the 48 slots, AM displays the first 24 (from 00:00) and PM the last 24 (from 12:00) |
| PickerSpec.SlotDisplayed | src/app/in-app/in-config/pages/components/custom-calendar/datetimepicker.component.ts:127-129 | a valid time is displayed iff it is on the half hour and in the current half |
| PickerSpec.FindSlot | src/app/in-app/in-config/pages/components/custom-calendar/datetimepicker.component.ts:231-233 | `find` succeeds iff a slot with that hour and minute is in the list, and returns that slot |
| PickerSpec.CombineDateAndTime | src/app/in-app/in-config/pages/components/custom-calendar/datetimepicker.component.ts:156-168 | the value becomes its own day at the given hour and minute with zero seconds, and `onChange(value)` then `onTouched()` are logged |
| PickerSpec.FilterTimeList | src/app/in-app/in-config/pages/components/custom-calendar/datetimepicker.component.ts:126-142 | the displayed list becomes the current half of the full list; a selection from the other half is dropped; with nothing selected and a nonempty display, the first displayed slot is selected and combined |
| PickerSpec.NgOnInit | src/app/in-app/in-config/pages/components/custom-calendar/datetimepicker.component.ts:44-54 | the 48 half-hour slots are appended to the full list, then the list is filtered |
| PickerSpec.OnAllDayChange | src/app/in-app/in-config/pages/components/custom-calendar/datetimepicker.component.ts:70-90 | all-day on: the selection is saved, the value moves to midnight and the selection is cleared; all-day off: the saved time, or 00:00, is selected and combined; either way `onChange` and `onTouched` are logged once more |
| PickerSpec.ShiftToAM | src/app/in-app/in-config/pages/components/custom-calendar/datetimepicker.component.ts:94-101 | in PM mode, a selection at 12:00 or later moves twelve hours earlier and is combined; otherwise nothing changes |
| PickerSpec.SetAM | src/app/in-app/in-config/pages/components/custom-calendar/datetimepicker.component.ts:93-105 | the shift to AM, then AM mode, then filtering |
| PickerSpec.ShiftToPM | src/app/in-app/in-config/pages/components/custom-calendar/datetimepicker.component.ts:109-116 | in AM mode, a selection before 12:00 moves twelve hours later and is combined; otherwise nothing changes |
| PickerSpec.SetPM | src/app/in-app/in-config/pages/components/custom-calendar/datetimepicker.component.ts:108-120 | the shift to PM, then PM mode, then filtering |
| PickerSpec.OnTimeDropdownChange | src/app/in-app/in-config/pages/components/custom-calendar/datetimepicker.component.ts:148-151 | the chosen time is selected and combined into the value |
| PickerSpec.OnDateTimeChange | src/app/in-app/in-config/pages/components/custom-calendar/datetimepicker.component.ts:174-180 | the value becomes the chosen day at its old hour and minute with zero seconds, and `onChange(value)` then `onTouched()` are logged |
| PickerSpec.WriteValue | src/app/in-app/in-config/pages/components/custom-calendar/datetimepicker.component.ts:226-236 | null changes nothing; a Date is adopted, sets the mode from its hour and is filtered, then the displayed slot equal to its time, or nothing, is selected |
| PickerSpec.FilterTimeListSelects | src/app/in-app/in-config/pages/components/custom-calendar/datetimepicker.component.ts:126-142 | the displayed list is the filtered list; a selection in the wrong half is cleared; an empty selection becomes the first displayed slot with the value's time set to it |
| PickerSpec.NgOnInitKeepsValid | src/app/in-app/in-config/pages/components/custom-calendar/datetimepicker.component.ts:44-54 | initialisation keeps the state valid: valid value and times, and the displayed list equal to the filtered list |
| PickerSpec.OnAllDayChangeKeepsValid | src/app/in-app/in-config/pages/components/custom-calendar/datetimepicker.component.ts:70-90 | the all-day switch keeps the state valid |
| PickerSpec.SetAMKeepsValid | src/app/in-app/in-config/pages/components/custom-calendar/datetimepicker.component.ts:93-105 | `setAM` keeps the state valid |
| PickerSpec.SetPMKeepsValid | src/app/in-app/in-config/pages/components/custom-calendar/datetimepicker.component.ts:108-120 | `setPM` keeps the state valid |
| PickerSpec.OnTimeDropdownChangeKeepsValid | src/app/in-app/in-config/pages/components/custom-calendar/datetimepicker.component.ts:148-151 | choosing a valid time keeps the state valid |
| PickerSpec.OnDateTimeChangeKeepsValid | src/app/in-app/in-config/pages/components/custom-calendar/datetimepicker.component.ts:174-180 | choosing a valid date keeps the state valid |
| PickerSpec.WriteValueKeepsValid | src/app/in-app/in-config/pages/components/custom-calendar/datetimepicker.component.ts:226-236 | writing null or a valid Date keeps the state valid |
| PickerSpec.NgOnInitFresh | src/app/in-app/in-config/pages/components/custom-calendar/datetimepicker.component.ts:44-54 | after init the list is the 48 slots, the morning 24 are displayed, 00:00 is selected and the value is moved to midnight |
| PickerSpec.SetPMShifts | src/app/in-app/in-config/pages/components/custom-calendar/datetimepicker.component.ts:108-120 | PM mode is set; from AM mode, a morning selection moves 12 hours later and the value's time follows it; otherwise it is filtering in PM mode |
| PickerSpec.SetAMShifts | src/app/in-app/in-config/pages/components/custom-calendar/datetimepicker.component.ts:93-105 | AM mode is set; from PM mode, an afternoon selection moves 12 hours earlier and the value's time follows it; otherwise it is filtering in AM mode |
| PickerSpec.SetPMThenSetAM | src/app/in-app/in-config/pages/components/custom-calendar/datetimepicker.component.ts:93-120 | switching to PM and back to AM restores a morning selection |
| PickerSpec.SetPMSelectionDisplayed | src/app/in-app/in-config/pages/components/custom-calendar/datetimepicker.component.ts:108-142 | over the 48 slots, with any selection on the half hour, `setPM` leaves a selection and it is one of the displayed slots |
| PickerSpec.SetAMSelectionDisplayed | src/app/in-app/in-config/pages/components/custom-calendar/datetimepicker.component.ts:93-142 | over the 48 slots, with any selection on the half hour, `setAM` leaves a selection and it is one of the displayed slots |
| PickerSpec.QuarterPastNineNotDisplayed | src/app/in-app/in-config/pages/components/custom-calendar/datetimepicker.component.ts:127-129 | over the 48 slots, PM mode does not display 21:15 |
| PickerSpec.SetPMOffHalfHour | src/app/in-app/in-config/pages/components/custom-calendar/datetimepicker.component.ts:108-142 | over the 48 slots in AM mode, a 09:15 selection becomes 21:15 under `setPM`, and 21:15 is not displayed |
| PickerSpec.AllDayThenSetPM | src/app/in-app/in-config/pages/components/custom-calendar/datetimepicker.component.ts:70-142 | turning all-day on and then pressing PM over the 48 slots selects 12:00 and sets the value's time to 12:00 while all-day stays on |
| PickerSpec.CombineDateAndTimeIdempotent | src/app/in-app/in-config/pages/components/custom-calendar/datetimepicker.component.ts:156-168 | combining keeps the day, sets the time, and is idempotent |
| PickerSpec.OnDateTimeChangeKeepsTime | src/app/in-app/in-config/pages/components/custom-calendar/datetimepicker.component.ts:174-180 | changing the date keeps the time; editing the date and editing the time commute |
| PickerSpec.OnTimeDropdownChangeSelects | src/app/in-app/in-config/pages/components/custom-calendar/datetimepicker.component.ts:148-151 | the chosen time is selected and becomes the value's time on the same day, and the form is notified |
| PickerSpec.NotifiedTrans | src/app/in-app/in-config/pages/components/custom-calendar/datetimepicker.component.ts:166-167 | a step that appends notifications, followed by one that sends a value and a touch, sends a value and a touch overall |
| PickerSpec.UserEditsNotify | src/app/in-app/in-config/pages/components/custom-calendar/datetimepicker.component.ts:70-180 | the all-day switch, a dropdown choice and a date choice each report the new value to the form and mark it touched |
| PickerSpec.ShiftThenFilter | src/app/in-app/in-config/pages/components/custom-calendar/datetimepicker.component.ts:93-120 | a silent or notifying step followed by filtering is still silent or notifying |
| PickerSpec.SetAMSilentOrNotified | src/app/in-app/in-config/pages/components/custom-calendar/datetimepicker.component.ts:93-105 | `setAM` either leaves the log alone or reports the new value and a touch |
| PickerSpec.SetPMSilentOrNotified | src/app/in-app/in-config/pages/components/custom-calendar/datetimepicker.component.ts:108-120 | `setPM` either leaves the log alone or reports the new value and a touch |
| PickerSpec.AllDayRoundTrip | src/app/in-app/in-config/pages/components/custom-calendar/datetimepicker.component.ts:70-90 | turning all-day on saves the selection, clears it and moves the value to midnight; turning it off restores the saved time, or 00:00 when none was saved |
| PickerSpec.AllDayRoundTripExact | src/app/in-app/in-config/pages/components/custom-calendar/datetimepicker.component.ts:70-90 | all-day on then off gives back the original value and selection when the value's time was the selection |
| PickerSpec.WriteValueSelects | src/app/in-app/in-config/pages/components/custom-calendar/datetimepicker.component.ts:226-236 | null leaves everything as it was; a Date sets the mode from its hour and selects the displayed slot equal to the argument's own time (not the value as filtering may have overwritten it), or nothing |
| PickerSpec.WriteValueOverSlots | src/app/in-app/in-config/pages/components/custom-calendar/datetimepicker.component.ts:226-236 | over the 48 slots: the value keeps its time only if the old selection was in the value's half, otherwise it becomes 00:00 or 12:00; a value on the half hour is selected exactly |
| PickerSpec.WriteValueReports | src/app/in-app/in-config/pages/components/custom-calendar/datetimepicker.component.ts:226-236 | over the 48 slots, writeValue calls onChange(value) and onTouched() once each exactly when the old selection is not in the value's half; otherwise the log is unchanged |
| PickerSpec.WriteNoonFromMorning | src/app/in-app/in-config/pages/components/custom-calendar/datetimepicker.component.ts:226-236 | with 09:00 selected in AM mode, writing a 12:00 value keeps it, selects 12:00 and still reports it to the form |
| DateTimePickerComponent.DateTimePicker.constructor | src/app/in-app/in-config/pages/components/custom-calendar/datetimepicker.component.ts:21-32 | the field initialisers: empty lists, no selection, AM mode, not all day, and the current time as the value |
| DateTimePickerComponent.DateTimePicker.NgOnInit | src/app/in-app/in-config/pages/components/custom-calendar/datetimepicker.component.ts:44-54 | the 48-step loop appends the half-hour slots to `timeList`, then the list is filtered |
| DateTimePickerComponent.DateTimePicker.OnAllDayChange | src/app/in-app/in-config/pages/components/custom-calendar/datetimepicker.component.ts:70-90 | the new state is `PickerSpec.OnAllDayChange` of the old one, and validity is kept |
| DateTimePickerComponent.DateTimePicker.SetAM | src/app/in-app/in-config/pages/components/custom-calendar/datetimepicker.component.ts:93-105 | the new state is `PickerSpec.SetAM` of the old one, and validity is kept |
| DateTimePickerComponent.DateTimePicker.SetPM | src/app/in-app/in-config/pages/components/custom-calendar/datetimepicker.component.ts:108-120 | the new state is `PickerSpec.SetPM` of the old one, and validity is kept |
| DateTimePickerComponent.DateTimePicker.FilterTimeList | src/app/in-app/in-config/pages/components/custom-calendar/datetimepicker.component.ts:126-142 | the new state is `PickerSpec.FilterTimeList` of the old one |
| DateTimePickerComponent.DateTimePicker.OnTimeDropdownChange | src/app/in-app/in-config/pages/components/custom-calendar/datetimepicker.component.ts:148-151 | the new state is `PickerSpec.OnTimeDropdownChange` of the old one, and validity is kept for a valid time |
| DateTimePickerComponent.DateTimePicker.CombineDateAndTime | src/app/in-app/in-config/pages/components/custom-calendar/datetimepicker.component.ts:156-168 | the new state is `PickerSpec.CombineDateAndTime` of the old one |
| DateTimePickerComponent.DateTimePicker.OnDateTimeChange | src/app/in-app/in-config/pages/components/custom-calendar/datetimepicker.component.ts:174-180 | the new state is `PickerSpec.OnDateTimeChange` of the old one, and validity is kept for a valid date |
| DateTimePickerComponent.DateTimePicker.WriteValue | src/app/in-app/in-config/pages/components/custom-calendar/datetimepicker.component.ts:226-236 | the new state is `PickerSpec.WriteValue` of the old one, and validity is kept for a valid Date |
| DateTimePickerComponent.LabelYear | src/app/in-app/in-config/pages/components/custom-calendar/datetimepicker.component.ts:187-198 | the year a label is built from: a Date's full year, a string's `parseInt` when it is not `NaN`, and none for anything else |
| DateTimePickerComponent.DecadeStart | src/app/in-app/in-config/pages/components/custom-calendar/datetimepicker.component.ts:189 | `Math.floor(y / 10) * 10` is the multiple of 10 at or below y, fewer than 10 below it |
| DateTimePickerComponent.CenturyStart | src/app/in-app/in-config/pages/components/custom-calendar/datetimepicker.component.ts:209 | `Math.floor(y / 100) * 100` is the multiple of 100 at or below y, fewer than 100 below it |
| DateTimePickerComponent.RangeText | src/app/in-app/in-config/pages/components/custom-calendar/datetimepicker.component.ts:190 | the text `${from} - ${to}`, never empty; it reads back as `from` (`DateTimePickerComponent.RangeTextReadsBack`) |
| DateTimePickerComponent.RangeTextReadsBack | src/app/in-app/in-config/pages/components/custom-calendar/datetimepicker.component.ts:190-193 | `parseInt` of a range label is its first year |
| DateTimePickerComponent.GetDecadeLabel | src/app/in-app/in-config/pages/components/custom-calendar/datetimepicker.component.ts:186-200 | the label is empty iff the argument is neither a Date nor a string that `parseInt` reads; otherwise it is "start - start+9" |
| DateTimePickerComponent.GetCenturyLabel | src/app/in-app/in-config/pages/components/custom-calendar/datetimepicker.component.ts:206-220 | the label is empty iff the argument is neither a Date nor a string that `parseInt` reads; otherwise it is "start - start+90" |
| DateTimePickerComponent.DecadeLabelStable | src/app/in-app/in-config/pages/components/custom-calendar/datetimepicker.component.ts:186-200 | a decade label reads back as its start year, and the label of a label is itself |
| DateTimePickerComponent.CenturyLabelStable | src/app/in-app/in-config/pages/components/custom-calendar/datetimepicker.component.ts:206-220 | a century label reads back as its start year, and the label of a label is itself |
| DateTimePickerComponent.DecadeLabelOfDate | src/app/in-app/in-config/pages/components/custom-calendar/datetimepicker.component.ts:187-190 | a Date in 2024 has the decade label "2020 - 2029" |
| DateTimePickerComponent.DecadeLabelOfText | src/app/in-app/in-config/pages/components/custom-calendar/datetimepicker.component.ts:192-197 | the string "2024abc" has the decade label "2020 - 2029" |
| DateTimePickerComponent.CenturyLabelExample | src/app/in-app/in-config/pages/components/custom-calendar/datetimepicker.component.ts:207-210 | a Date in 2024 has the century label "2000 - 2090" |
| DateTimePickerComponent.LabelOfNonNumber | src/app/in-app/in-config/pages/components/custom-calendar/datetimepicker.component.ts:192-199 | the string "bad-input", which `parseInt` rejects, and values of any other type have the empty decade and century labels |
| DateTimePickerComponent.DisabledDates | src/app/in-app/in-config/pages/components/custom-calendar/datetimepicker.component.ts:59-63 | a date is disabled when it is strictly before midnight at the start of today |
| DateTimePickerComponent.DisabledDatesByDay | src/app/in-app/in-config/pages/components/custom-calendar/datetimepicker.component.ts:59-63 | a date is disabled iff its day is before today's; today itself is never disabled |
| DateTimePickerComponent.AllDayScenario | src/app/in-app/in-config/pages/components/custom-calendar/datetimepicker.component.ts:70-151 | choosing 09:30, switching to PM, then all-day on and off leaves 21:30 selected and as the value's time |
| DateTimePickerComponent.WriteValueScenario | src/app/in-app/in-config/pages/components/custom-calendar/datetimepicker.component.ts:226-236 | writing 15:30 right after initialisation (00:00 selected, AM mode) leaves 15:30 selected but the value at 12:00 |
| MonthNameVi.Months | src/app/in-app/in-config/pages/components/custom-calendar/pipes/month-format-pipe/month-name-vi.pipe.ts:7-20 | the twelve entries: month numbers 1 to 12 with their Vietnamese names, each ending in a comma |
| MonthNameVi.FindMonth | src/app/in-app/in-config/pages/components/custom-calendar/pipes/month-format-pipe/month-name-vi.pipe.ts:43 | `find` returns an entry with the key, or nothing when no entry has it |
| MonthNameVi.MonthTableShape | src/app/in-app/in-config/pages/components/custom-calendar/pipes/month-format-pipe/month-name-vi.pipe.ts:7-20 | the table has keys 1 to 12 in order; its texts end in a comma and are pairwise distinct |
| MonthNameVi.FindConsecutive | src/app/in-app/in-config/pages/components/custom-calendar/pipes/month-format-pipe/month-name-vi.pipe.ts:43 | in a table with consecutive keys, `find` returns the entry at the key's offset, or nothing outside the run |
| MonthNameVi.FindMonthRange | src/app/in-app/in-config/pages/components/custom-calendar/pipes/month-format-pipe/month-name-vi.pipe.ts:43-44 | a month number has an entry iff it is 1 to 12, namely entry n-1 |
| MonthNameVi.Render | src/app/in-app/in-config/pages/components/custom-calendar/pipes/month-format-pipe/month-name-vi.pipe.ts:43-44 | the text of the entry with the month number, a space and the year, or "unknown" when no entry has that number |
| MonthNameVi.RenderInRange | src/app/in-app/in-config/pages/components/custom-calendar/pipes/month-format-pipe/month-name-vi.pipe.ts:43-44 | a month from 1 to 12 renders as its name, a space and the year, never as "unknown" |
| MonthNameVi.RenderOutOfRange | src/app/in-app/in-config/pages/components/custom-calendar/pipes/month-format-pipe/month-name-vi.pipe.ts:43-44 | a month number outside 1 to 12 renders as "unknown" |
| MonthNameVi.RenderMarch | src/app/in-app/in-config/pages/components/custom-calendar/pipes/month-format-pipe/month-name-vi.pipe.ts:10-44 | month 3 renders as "Tháng ba, " followed by the year |
| MonthNameVi.Transform | src/app/in-app/in-config/pages/components/custom-calendar/pipes/month-format-pipe/month-name-vi.pipe.ts:22-45 | null and "" are "unknown"; a Date gives its month number and decimal year; a string is split on spaces and gives its second piece's `parseInt` as the month and its third piece as the year, or "unknown" with fewer than three pieces or a `NaN` month; the result is then rendered |
| MonthNameVi.TransformFalsy | src/app/in-app/in-config/pages/components/custom-calendar/pipes/month-format-pipe/month-name-vi.pipe.ts:23 | null and the empty string are "unknown" |
| MonthNameVi.TransformDate | src/app/in-app/in-config/pages/components/custom-calendar/pipes/month-format-pipe/month-name-vi.pipe.ts:28-31 | a Date renders as its month's name and its year in decimal, never "unknown" |
| MonthNameVi.TransformMarch2024 | src/app/in-app/in-config/pages/components/custom-calendar/pipes/month-format-pipe/month-name-vi.pipe.ts:28-31 | a Date in March 2024 renders as "Tháng ba, 2024" |
| MonthNameVi.TransformFewPieces | src/app/in-app/in-config/pages/components/custom-calendar/pipes/month-format-pipe/month-name-vi.pipe.ts:34-35 | a string with fewer than three pieces is "unknown" |
| MonthNameVi.TransformMonthNotANumber | src/app/in-app/in-config/pages/components/custom-calendar/pipes/month-format-pipe/month-name-vi.pipe.ts:37-40 | a string whose second piece `parseInt` rejects is "unknown" |
| MonthNameVi.TransformMonthOutOfRange | src/app/in-app/in-config/pages/components/custom-calendar/pipes/month-format-pipe/month-name-vi.pipe.ts:43-44 | a month number outside 1 to 12 is "unknown" |
| MonthNameVi.TransformPieces | src/app/in-app/in-config/pages/components/custom-calendar/pipes/month-format-pipe/month-name-vi.pipe.ts:33-44 | a string of single-space-separated pieces whose second piece `parseInt` reads renders that number with the third piece verbatim as the year; the first piece and any after the third are ignored |
| MonthNameVi.TransformWed3 | src/app/in-app/in-config/pages/components/custom-calendar/pipes/month-format-pipe/month-name-vi.pipe.ts:33-44 | any day name, then 3, then a year (as in "Wed 3 2024") renders as "Tháng ba, " followed by that year |

## Left out

- Angular and Kendo plumbing is not modelled: the decorators, the `NG_VALUE_ACCESSOR` and `L10N_PREFIX` providers, and the locale set on `CldrIntlService` in `ngOnInit`. None of it affects the component's state.
- `registerOnChange` / `registerOnTouched` are not modelled as operations. Every call of the registered callbacks is recorded in the log `PickerSpec.Picker.log`, whichever callback is registered.
- `timeDropdown.toggle(false)` in `onAllDayChange` is left out. It acts on the Kendo popup, not on the component's state.
- `setDisabledState` is left out; it has an empty body.
- `onOpen`, `onClose`, `onFocus` and `onBlur` are left out; they only write to the console.
- The fields `minDate` and `dateOnlyValue` are left out. Only the template reads them.
- The clock (`new Date()`) is a parameter: `now` for the constructor, `today` for `disabledDates`.
- JavaScript `Date` internals are not modelled:
  - the millisecond epoch, time zones and daylight saving;
  - the normalisation of out-of-range fields;
  - the mapping of years 0 to 99 to 1900 to 1999 in the `Date` constructor;
  - days beyond the end of the month (a day is only required to be 1 to 31);
  - an Invalid Date.
- `second` stands for seconds and milliseconds together. The component only ever clears them or leaves them alone.
- The slot `Date`s keep only their hour and minute, which is all the component reads of them. Their day (1 January 1900) is not kept.
- `NgOnInit`: after the last of the 48 steps the loop's `base` holds 24:00 in the model, where JavaScript would roll it over to the next day. It is never read again.
- `onTimeDropdownChange` is given a `Time`, never null; the source's parameter type excludes null.
- `onDateTimeChange` is given a `DateTime`, never null. A cleared Kendo DatePicker emits null, and the source then throws a `TypeError` when it reads the date's fields (datetimepicker.component.ts:177). The model does not include that exception.
- The `this.dateTimeValue || new Date()` fallback in `combineDateAndTime` is not modelled. The component's own code never leaves `dateTimeValue` empty: it starts as a Date, every assignment stores a Date, and `writeValue(null)` leaves it alone.
- `JsText.ParseInt` uses unbounded integers. It leaves out the loss of precision above 2^53 and `-0`.
- `JsText.IntToString` leaves out the exponent form JavaScript uses from 10^21 upward.
- The arguments of `getDecadeLabel` / `getCenturyLabel` are a Date, a string or anything else (`LabelArg`). Which other value is passed does not matter to the result.
- The pipe's input is null, a string or a Date. `undefined` behaves as null. Other types are excluded by the source's parameter type.
