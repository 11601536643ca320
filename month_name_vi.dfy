/** The `monthFormat` pipe: renders a Date, or a space-separated string whose second token is
    a month number and third a year, as the Vietnamese month name followed by the year. */
module MonthNameVi {
  import opened Wrappers
  import opened JsDate
  import opened JsText

  datatype MonthEntry = MonthEntry(month: int, monthText: string)

  /** The pipe's fixed table: month numbers 1 to 12 and their names, each ending in a comma. */
  const Months: seq<MonthEntry> := [
    MonthEntry(1, "Tháng một,"),
    MonthEntry(2, "Tháng hai,"),
    MonthEntry(3, "Tháng ba,"),
    MonthEntry(4, "Tháng bốn,"),
    MonthEntry(5, "Tháng năm,"),
    MonthEntry(6, "Tháng sáu,"),
    MonthEntry(7, "Tháng bảy,"),
    MonthEntry(8, "Tháng tám,"),
    MonthEntry(9, "Tháng chín,"),
    MonthEntry(10, "Tháng mười,"),
    MonthEntry(11, "Tháng mười một,"),
    MonthEntry(12, "Tháng mười hai,")
  ]

  /** What the pipe returns for input it cannot read ("unknown"). */
  const Unknown: string := "Không xác định"

  /** The pipe's input: `null` (or `undefined`), a string, or a Date. */
  datatype PipeValue = NullValue | TextValue(text: string) | DateValue(date: DateTime)

  /** `table.find(m => m.month === n)`: the first entry with key `n`. */
  function FindMonth(table: seq<MonthEntry>, n: int): (r: Option<MonthEntry>)
    ensures r.Some? ==> r.value in table && r.value.month == n
    ensures r.None? ==> forall i :: 0 <= i < |table| ==> table[i].month != n
    decreases |table|
  {
    if table == [] then None
    else if table[0].month == n then Some(table[0])
    else FindMonth(table[1..], n)
  }

  /** `${monthText} ${year}` for the entry with key `monthNumber`, or the sentinel. */
  function Render(monthNumber: int, year: string): string {
    match FindMonth(Months, monthNumber)
    case Some(m) => m.monthText + " " + year
    case None => Unknown
  }

  /** `transform(value)`. A falsy value (null or "") is unknown. A Date gives its month and
      its year in decimal. A string is split on single spaces; with fewer than three pieces,
      or a second piece that `parseInt` rejects, it is unknown; otherwise the second piece is
      the month number and the third, as it stands, the year. A month number with no table
      entry is unknown. */
  function Transform(value: PipeValue): string {
    match value
    case NullValue => Unknown
    case TextValue(s) =>
      if s == "" then Unknown
      else
        var parts := Split(s, ' ');
        if |parts| < 3 then Unknown
        else
          (match ParseInt(parts[1])
           case None => Unknown
           case Some(monthNumber) => Render(monthNumber, parts[2]))
    case DateValue(d) => Render(d.month0 + 1, IntToString(d.year))
  }

  /** The table's keys are 1 to 12 in order; its texts end in a comma and are distinct. */
  lemma MonthTableShape()
    ensures |Months| == 12
    ensures forall i :: 0 <= i < 12 ==> Months[i].month == i + 1
    ensures forall i :: 0 <= i < 12 ==>
      |Months[i].monthText| > 0 && Months[i].monthText[|Months[i].monthText| - 1] == ','
    ensures forall i, j :: 0 <= i < j < 12 ==> Months[i].monthText != Months[j].monthText
    ensures forall i :: 0 <= i < 12 ==> Months[i].monthText[0] == 'T'
  {
    forall i, j | 0 <= i < j < 12
      ensures Months[i].monthText != Months[j].monthText
    {
      var a, b := Months[i].monthText, Months[j].monthText;
      if |a| == |b| {
        // names of equal length differ in the first or second letter of a word
        assert a[6] != b[6] || a[7] != b[7] || (|a| == 15 && a[11] != b[11]);
      }
    }
  }

  /** In a table whose keys run consecutively from `first`, `find` returns the entry at the
      key's offset, and nothing for a key outside the run. */
  lemma {:induction false} FindConsecutive(table: seq<MonthEntry>, first: int, n: int)
    requires forall i :: 0 <= i < |table| ==> table[i].month == first + i
    ensures FindMonth(table, n) ==
      if first <= n < first + |table| then Some(table[n - first]) else None
    decreases |table|
  {
    if table != [] && table[0].month != n {
      FindConsecutive(table[1..], first + 1, n);
    }
  }

  /** A month number has an entry exactly when it is between 1 and 12; it is the entry at
      index `n - 1`. */
  lemma FindMonthRange(n: int)
    ensures FindMonth(Months, n).Some? <==> 1 <= n <= 12
    ensures 1 <= n <= 12 ==> FindMonth(Months, n) == Some(Months[n - 1])
  {
    MonthTableShape();
    FindConsecutive(Months, 1, n);
  }

  /** A month number from 1 to 12 renders as its name, a space and the year as given. */
  lemma RenderInRange(n: int, year: string)
    requires 1 <= n <= 12
    ensures Render(n, year) == Months[n - 1].monthText + " " + year
    ensures Render(n, year) != Unknown
  {
    FindMonthRange(n);
    MonthTableShape();
    assert Render(n, year)[0] == 'T';
  }

  /** A month number outside 1 to 12 renders as unknown. */
  lemma RenderOutOfRange(n: int, year: string)
    requires !(1 <= n <= 12)
    ensures Render(n, year) == Unknown
  {
    FindMonthRange(n);
  }

  /** Null and the empty string are unknown. */
  lemma TransformFalsy()
    ensures Transform(NullValue) == Unknown
    ensures Transform(TextValue("")) == Unknown
  {
  }

  /** A Date always has a name: its 0-based month picks the table entry, followed by a space
      and its year. */
  lemma TransformDate(d: DateTime)
    requires ValidDateTime(d)
    ensures Transform(DateValue(d)) == Months[d.month0].monthText + " " + IntToString(d.year)
    ensures Transform(DateValue(d)) != Unknown
  {
    RenderInRange(d.month0 + 1, IntToString(d.year));
  }

  /** A Date in March 2024 is "Tháng ba, 2024". */
  lemma TransformMarch2024(d: DateTime)
    requires ValidDateTime(d) && d.year == 2024 && d.month0 == 2
    ensures Transform(DateValue(d)) == "Tháng ba, 2024"
  {
    var year := IntToString(2024);
    assert year == "2024";
    assert Months[2].monthText + " " + year == "Tháng ba, 2024";
    TransformDate(d);
  }

  /** A string of fewer than three space-separated pieces is unknown. */
  lemma TransformFewPieces(s: string)
    requires |Split(s, ' ')| < 3
    ensures Transform(TextValue(s)) == Unknown
  {
  }

  /** A string whose second piece does not start with an integer is unknown. */
  lemma TransformMonthNotANumber(s: string)
    requires |Split(s, ' ')| >= 3 && ParseInt(Split(s, ' ')[1]).None?
    ensures Transform(TextValue(s)) == Unknown
  {
  }

  /** A month number outside 1 to 12 is unknown. */
  lemma TransformMonthOutOfRange(s: string)
    requires |Split(s, ' ')| >= 3 && ParseInt(Split(s, ' ')[1]).Some?
    requires !(1 <= ParseInt(Split(s, ' ')[1]).value <= 12)
    ensures Transform(TextValue(s)) == Unknown
  {
    FindMonthRange(ParseInt(Split(s, ' ')[1]).value);
  }

  /** Pieces joined by single spaces whose second piece reads as a number render as that
      number with the third piece, exactly as written, as the year; the first piece and any
      pieces after the third are ignored. */
  lemma TransformPieces(pieces: seq<string>, month: int)
    requires |pieces| >= 3
    requires forall i :: 0 <= i < |pieces| ==> ' ' !in pieces[i]
    requires ParseInt(pieces[1]).Some? && ParseInt(pieces[1]).value == month
    ensures Transform(TextValue(Join(pieces, ' '))) == Render(month, pieces[2])
  {
    var s := Join(pieces, ' ');
    assert s != [] by {
      assert s == pieces[0] + [' '] + Join(pieces[1..], ' ');
    }
    SplitJoin(pieces, ' ');
  }

  /** Month 3 renders as "Tháng ba, " and the year. */
  lemma RenderMarch(year: string)
    ensures Render(3, year) == "Tháng ba, " + year
  {
    RenderInRange(3, year);
    assert Months[2].monthText + " " == "Tháng ba, ";
  }

  /** Any day name, then 3, then a year: "Wed 3 2024" is "Tháng ba, 2024". */
  lemma TransformWed3(day: string, year: string)
    requires ' ' !in day && ' ' !in year
    ensures Transform(TextValue(day + " 3 " + year)) == "Tháng ba, " + year
  {
    var pieces := [day, "3", year];
    assert Join(pieces, ' ') == day + " 3 " + year by {
      assert Join(pieces[1..], ' ') == "3" + [' '] + year;
    }
    ParseIntOfIntToString(3, "");
    assert IntToString(3) + "" == "3";
    TransformPieces(pieces, 3);
    RenderMarch(year);
  }
}
