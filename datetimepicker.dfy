/** The date-time picker form control: a class whose methods update its fields in place as
    the component does, each proved to match the operation of the same name in PickerSpec;
    and the component's pure helpers, the decade and century labels and the past-day test. */
module DateTimePickerComponent {
  import opened Wrappers
  import opened JsDate
  import opened JsText
  import Spec = PickerSpec

  class DateTimePicker {
    var dateTimeValue: DateTime
    var allDay: bool
    var timeList: seq<Time>
    var displayedTimeList: seq<Time>
    var selectedTime: Option<Time>
    var isAM: bool
    var previousTime: Option<Time>
    /** The calls made to the registered `onChange` and `onTouched` callbacks, in order. */
    ghost var log: seq<Spec.Notification>

    /** The fields as a value. */
    ghost function Model(): Spec.Picker
      reads this
    {
      Spec.Picker(dateTimeValue, allDay, timeList, displayedTimeList, selectedTime, isAM,
                  previousTime, log)
    }

    ghost predicate Valid()
      reads this
    {
      Spec.Valid(Model())
    }

    /** The field initialisers; `now` is the clock's `new Date()`. */
    constructor (now: DateTime)
      ensures Model() == Spec.Initial(now)
      ensures ValidDateTime(now) ==> Valid()
    {
      dateTimeValue := now;
      allDay := false;
      timeList := [];
      displayedTimeList := [];
      selectedTime := None;
      isAM := true;
      previousTime := None;
      log := [];
    }

    /** Push 48 half-hour slots from 00:00, then filter. */
    method NgOnInit()
      modifies this
      ensures Model() == Spec.NgOnInit(old(Model()))
      ensures old(Valid()) ==> Valid()
    {
      var base := Time(0, 0);
      var i := 0;
      while i < 48
        invariant 0 <= i <= 48
        invariant base == Spec.SlotAt(i)
        invariant Model() == old(Model()).(timeList := old(timeList) + Spec.HalfHourSlots()[..i])
      {
        assert Spec.HalfHourSlots()[..i + 1] == Spec.HalfHourSlots()[..i] + [base];
        timeList := timeList + [base];
        Spec.Advance30SlotAt(i);
        base := Spec.Advance30(base);
        i := i + 1;
      }
      assert Spec.HalfHourSlots()[..48] == Spec.HalfHourSlots();
      FilterTimeList();
      if old(Valid()) {
        Spec.NgOnInitKeepsValid(old(Model()));
      }
    }

    /** React to the all-day checkbox, whose new state the template has put in `allDay`. */
    method OnAllDayChange()
      modifies this
      ensures Model() == Spec.OnAllDayChange(old(Model()))
      ensures old(Valid()) ==> Valid()
    {
      if allDay {
        previousTime := selectedTime;
        var d := dateTimeValue;
        dateTimeValue := DateTime(d.year, d.month0, d.day, 0, 0, 0);
        selectedTime := None;
      } else {
        if previousTime.Some? {
          selectedTime := previousTime;
          CombineDateAndTime(previousTime.value);
        } else {
          // the fallback Date is the current day at 00:00:00; only its time is ever read
          var fallback := Time(0, 0);
          selectedTime := Some(fallback);
          CombineDateAndTime(fallback);
        }
      }
      log := log + [Spec.ValueChanged(dateTimeValue), Spec.Touched];
      if old(Valid()) {
        Spec.OnAllDayChangeKeepsValid(old(Model()));
      }
    }

    method SetAM()
      modifies this
      ensures Model() == Spec.SetAM(old(Model()))
      ensures old(Valid()) ==> Valid()
    {
      if !isAM && selectedTime.Some? {
        var h := selectedTime.value.hour;
        if h >= 12 {
          var newTime := Time(h - 12, selectedTime.value.minute);
          selectedTime := Some(newTime);
          CombineDateAndTime(newTime);
        }
      }
      assert Model() == Spec.ShiftToAM(old(Model()));
      isAM := true;
      FilterTimeList();
      if old(Valid()) {
        Spec.SetAMKeepsValid(old(Model()));
      }
    }

    method SetPM()
      modifies this
      ensures Model() == Spec.SetPM(old(Model()))
      ensures old(Valid()) ==> Valid()
    {
      if isAM && selectedTime.Some? {
        var h := selectedTime.value.hour;
        if h < 12 {
          var newTime := Time(h + 12, selectedTime.value.minute);
          selectedTime := Some(newTime);
          CombineDateAndTime(newTime);
        }
      }
      assert Model() == Spec.ShiftToPM(old(Model()));
      isAM := false;
      FilterTimeList();
      if old(Valid()) {
        Spec.SetPMKeepsValid(old(Model()));
      }
    }

    method FilterTimeList()
      modifies this
      ensures Model() == Spec.FilterTimeList(old(Model()))
      ensures old(Valid()) ==> Valid()
    {
      displayedTimeList := Spec.Filter(timeList, isAM);
      if selectedTime.Some? &&
         ((isAM && selectedTime.value.hour >= 12) || (!isAM && selectedTime.value.hour < 12))
      {
        selectedTime := None;
      }
      if selectedTime.None? && |displayedTimeList| > 0 {
        selectedTime := Some(displayedTimeList[0]);
        CombineDateAndTime(displayedTimeList[0]);
      }
      if old(Valid()) {
        Spec.FilterTimeListValid(old(Model()));
      }
    }

    method OnTimeDropdownChange(value: Time)
      modifies this
      ensures Model() == Spec.OnTimeDropdownChange(old(Model()), value)
      ensures old(Valid()) && ValidTime(value) ==> Valid()
    {
      selectedTime := Some(value);
      CombineDateAndTime(value);
      if old(Valid()) && ValidTime(value) {
        Spec.OnTimeDropdownChangeKeepsValid(old(Model()), value);
      }
    }

    method CombineDateAndTime(time: Time)
      modifies this
      ensures Model() == Spec.CombineDateAndTime(old(Model()), time)
      ensures old(Valid()) && ValidTime(time) ==> Valid()
    {
      var d := dateTimeValue;
      dateTimeValue := DateTime(d.year, d.month0, d.day, time.hour, time.minute, 0);
      log := log + [Spec.ValueChanged(dateTimeValue), Spec.Touched];
    }

    method OnDateTimeChange(date: DateTime)
      modifies this
      ensures Model() == Spec.OnDateTimeChange(old(Model()), date)
      ensures old(Valid()) && ValidDateTime(date) ==> Valid()
    {
      var oldH := dateTimeValue.hour;
      var oldM := dateTimeValue.minute;
      dateTimeValue := DateTime(date.year, date.month0, date.day, oldH, oldM, 0);
      log := log + [Spec.ValueChanged(dateTimeValue), Spec.Touched];
      if old(Valid()) && ValidDateTime(date) {
        Spec.OnDateTimeChangeKeepsValid(old(Model()), date);
      }
    }

    /** The form's entry point for a new value; `None` is `null`. */
    method WriteValue(value: Option<DateTime>)
      modifies this
      ensures Model() == Spec.WriteValue(old(Model()), value)
      ensures old(Valid()) && (value.Some? ==> ValidDateTime(value.value)) ==> Valid()
    {
      if value.Some? {
        var v := value.value;
        dateTimeValue := v;
        isAM := v.hour < 12;
        FilterTimeList();
        var found := Spec.FindSlot(displayedTimeList, v.hour, v.minute);
        selectedTime := found;
      }
      if old(Valid()) && (value.Some? ==> ValidDateTime(value.value)) {
        Spec.WriteValueKeepsValid(old(Model()), value);
      }
    }
  }

  // ---------------------------------------------------------------------------
  // Calendar labels

  /** What the calendar passes to the label callbacks: a Date, a string, or anything else. */
  datatype LabelArg = DateArg(date: DateTime) | StringArg(text: string) | OtherArg

  /** The year a label is made from: the Date's year, or the string's leading integer when
      `parseInt` finds one; any other argument, or a string it reads as `NaN`, has none. */
  function LabelYear(x: LabelArg): Option<int> {
    match x
    case DateArg(d) => Some(d.year)
    case StringArg(s) => ParseInt(s)
    case OtherArg => None
  }

  /** `Math.floor(y / 10) * 10`: the first year of `y`'s decade. Flooring division leaves a
      remainder that is never negative, as `%` does here, so this is `y` less that remainder. */
  function DecadeStart(y: int): (s: int)
    ensures s % 10 == 0 && s <= y < s + 10
  {
    y - y % 10
  }

  /** `Math.floor(y / 100) * 100`: the first year of `y`'s century. */
  function CenturyStart(y: int): (s: int)
    ensures s % 100 == 0 && s <= y < s + 100
  {
    y - y % 100
  }

  /** `${from} - ${to}`. */
  function RangeText(from: int, to: int): (r: string)
    ensures |r| > 0
  {
    IntToString(from) + " - " + IntToString(to)
  }

  function GetDecadeLabel(x: LabelArg): (r: string)
    ensures r == "" <==> LabelYear(x).None?
    ensures LabelYear(x).Some? ==>
      r == RangeText(DecadeStart(LabelYear(x).value), DecadeStart(LabelYear(x).value) + 9)
  {
    match LabelYear(x)
    case Some(y) => RangeText(DecadeStart(y), DecadeStart(y) + 9)
    case None => ""
  }

  /** The century view labels its row of decades, so the range ends at `start + 90`. */
  function GetCenturyLabel(x: LabelArg): (r: string)
    ensures r == "" <==> LabelYear(x).None?
    ensures LabelYear(x).Some? ==>
      r == RangeText(CenturyStart(LabelYear(x).value), CenturyStart(LabelYear(x).value) + 90)
  {
    match LabelYear(x)
    case Some(y) => RangeText(CenturyStart(y), CenturyStart(y) + 90)
    case None => ""
  }

  /** `parseInt` of a range label reads back its first year. */
  lemma RangeTextReadsBack(from: int, to: int)
    ensures ParseInt(RangeText(from, to)) == Some(from)
  {
    var rest := " - " + IntToString(to);
    assert RangeText(from, to) == IntToString(from) + rest;
    ParseIntOfIntToString(from, rest);
  }

  /** A decade label names the decade's first year, and handing the label back as a string
      gives the same label again. */
  lemma DecadeLabelStable(x: LabelArg)
    requires LabelYear(x).Some?
    ensures ParseInt(GetDecadeLabel(x)) == Some(DecadeStart(LabelYear(x).value))
    ensures GetDecadeLabel(StringArg(GetDecadeLabel(x))) == GetDecadeLabel(x)
  {
    var s := DecadeStart(LabelYear(x).value);
    RangeTextReadsBack(s, s + 9);
    assert DecadeStart(s) == s;
  }

  /** A century label names the century's first year, and handing the label back as a string
      gives the same label again. */
  lemma CenturyLabelStable(x: LabelArg)
    requires LabelYear(x).Some?
    ensures ParseInt(GetCenturyLabel(x)) == Some(CenturyStart(LabelYear(x).value))
    ensures GetCenturyLabel(StringArg(GetCenturyLabel(x))) == GetCenturyLabel(x)
  {
    var s := CenturyStart(LabelYear(x).value);
    RangeTextReadsBack(s, s + 90);
    assert CenturyStart(s) == s;
  }

  /** A Date in 2024 is in the decade labelled "2020 - 2029". */
  lemma DecadeLabelOfDate(d: DateTime)
    requires d.year == 2024
    ensures GetDecadeLabel(DateArg(d)) == "2020 - 2029"
  {
    assert DecadeStart(2024) == 2020;
    assert IntToString(2020) == "2020";
    assert IntToString(2029) == "2029";
  }

  /** So is the string "2024abc": only its leading digits are read. */
  lemma DecadeLabelOfText()
    ensures GetDecadeLabel(StringArg("2024abc")) == "2020 - 2029"
  {
    ParseIntTrailingLetters();
    DecadeLabelOfDate(DateTime(2024, 0, 1, 0, 0, 0));
  }

  /** The year 2024 is in the century labelled "2000 - 2090". */
  lemma CenturyLabelExample(d: DateTime)
    requires d.year == 2024
    ensures GetCenturyLabel(DateArg(d)) == "2000 - 2090"
  {
    assert CenturyStart(2024) == 2000;
    assert IntToString(2000) == "2000";
    assert IntToString(2090) == "2090";
  }

  /** A string that does not start with an integer, and an argument that is neither a Date nor
      a string, are labelled "". */
  lemma LabelOfNonNumber()
    ensures GetDecadeLabel(StringArg("bad-input")) == ""
    ensures GetCenturyLabel(StringArg("bad-input")) == ""
    ensures GetDecadeLabel(OtherArg) == "" && GetCenturyLabel(OtherArg) == ""
  {
    ParseIntNoDigits();
  }

  // ---------------------------------------------------------------------------
  // Past days

  /** `disabledDates(date)`: `date` is before the start of `today`, the clock's current day. */
  predicate DisabledDates(date: DateTime, today: DateTime) {
    Before(date, StartOfDay(today))
  }

  /** A day is disabled exactly when it is an earlier calendar day than today, whatever its
      time; today itself stays selectable. */
  lemma DisabledDatesByDay(date: DateTime, today: DateTime)
    requires ValidDateTime(date)
    ensures DisabledDates(date, today) <==> DayBefore(DayOf(date), DayOf(today))
    ensures !DisabledDates(today, today) || !ValidDateTime(today)
  {
  }

  // ---------------------------------------------------------------------------
  // Sequences of calls

  /** Pick 2024-06-01 and 09:30 in AM mode, switch to PM, turn all-day on and off again:
      the selection ends at 21:30 and so does the value. */
  method AllDayScenario(now: DateTime) returns (value: DateTime, selected: Option<Time>)
    ensures value == DateTime(2024, 5, 1, 21, 30, 0)
    ensures selected == Some(Time(21, 30))
  {
    var p := new DateTimePicker(now);
    p.NgOnInit();
    p.OnDateTimeChange(DateTime(2024, 5, 1, 0, 0, 0));
    p.OnTimeDropdownChange(Time(9, 30));
    assert p.dateTimeValue == DateTime(2024, 5, 1, 9, 30, 0);
    assert p.isAM;
    ghost var before := p.Model();
    p.SetPM();
    Spec.SetPMShifts(before);
    assert p.selectedTime == Some(Time(21, 30));
    assert p.dateTimeValue == DateTime(2024, 5, 1, 21, 30, 0);
    p.allDay := true;
    ghost var allDayOn := p.Model();
    p.OnAllDayChange();
    Spec.AllDayRoundTrip(allDayOn);
    assert p.dateTimeValue == DateTime(2024, 5, 1, 0, 0, 0) && p.selectedTime == None;
    p.allDay := false;
    p.OnAllDayChange();
    value, selected := p.dateTimeValue, p.selectedTime;
  }

  /** After initialisation the selection is 00:00 in AM mode. The form then writes
      2024-06-01 15:30: the selection becomes 15:30, but filtering in PM mode first selected
      12:00 and combined it, so the value is left at 12:00. */
  method WriteValueScenario(now: DateTime) returns (value: DateTime, selected: Option<Time>)
    ensures value == DateTime(2024, 5, 1, 12, 0, 0)
    ensures selected == Some(Time(15, 30))
  {
    var p := new DateTimePicker(now);
    p.NgOnInit();
    Spec.NgOnInitFresh(now);
    ghost var before := p.Model();
    var v := DateTime(2024, 5, 1, 15, 30, 0);
    p.WriteValue(Some(v));
    Spec.WriteValueOverSlots(before, v);
    value, selected := p.dateTimeValue, p.selectedTime;
  }
}
