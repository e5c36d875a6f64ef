/**
 * The month view of the single-file app (index.tsx): the entries whose date falls in the
 * selected month and year, ordered by date, entries of the same day in the order they were
 * saved.
 *
 * `new Date(e.date)` is modelled for the ISO calendar-date form `YYYY-MM-DD` that the date
 * input produces: it is read as midnight UTC, and the month and year it shows are taken to
 * be those of the same calendar day, as they are wherever the clock is at or ahead of UTC.
 */
module MonthView {
  import opened Wrappers
  import opened Numbers
  import opened Types
  import opened Sequences

  /** A day of the proleptic Gregorian calendar. */
  datatype CalendarDate = CalendarDate(year: int, month: int, day: int)

  predicate IsLeapYear(y: int)
  {
    y % 4 == 0 && (y % 100 != 0 || y % 400 == 0)
  }

  function DaysInMonth(y: int, m: int): int
    requires 1 <= m <= 12
  {
    if m == 2 then (if IsLeapYear(y) then 29 else 28)
    else if m == 4 || m == 6 || m == 9 || m == 11 then 30
    else 31
  }

  predicate ValidDate(d: CalendarDate)
  {
    0 <= d.year <= 9999 && 1 <= d.month <= 12 && 1 <= d.day <= DaysInMonth(d.year, d.month)
  }

  /**
   * `new Date(s)` on the form `YYYY-MM-DD`: the day it names, or `None` (an Invalid Date)
   * when the text is not of that form or names no day of the calendar.
   */
  function ParseIsoDate(s: string): (d: Option<CalendarDate>)
    ensures d.Some? ==> ValidDate(d.value)
  {
    if |s| == 10 && s[4] == '-' && s[7] == '-' &&
       AllDigits(s[..4]) && AllDigits(s[5..7]) && AllDigits(s[8..]) then
      var d := CalendarDate(DigitsValue(s[..4]), DigitsValue(s[5..7]), DigitsValue(s[8..]));
      if ValidDate(d) then Some(d) else None
    else None
  }

  /** Two decimal digits, with a leading zero. */
  function Digits2(n: nat): (s: string)
    requires n < 100
    ensures |s| == 2 && AllDigits(s) && DigitsValue(s) == n
  {
    var s := [DigitChar(n / 10), DigitChar(n % 10)];
    assert s[..1] == [DigitChar(n / 10)] && s[..1][..0] == [];
    assert DigitsValue(s[..1]) == n / 10;
    assert DigitsValue(s) == DigitsValue(s[..1]) * 10 + n % 10;
    s
  }

  /** Four decimal digits, with leading zeros. */
  function Digits4(n: nat): (s: string)
    requires n < 10000
    ensures |s| == 4 && AllDigits(s) && DigitsValue(s) == n
  {
    var hi, lo := Digits2(n / 100), Digits2(n % 100);
    var s := hi + lo;
    assert s[..3] == hi + lo[..1] && s[..2] == hi && (hi + lo[..1])[..2] == hi;
    assert lo[..1][..0] == [];
    s
  }

  /** The `YYYY-MM-DD` text of a day, as the date input writes it. */
  function FormatIsoDate(d: CalendarDate): (s: string)
    requires ValidDate(d)
    ensures |s| == 10
  {
    Digits4(d.year) + "-" + Digits2(d.month) + "-" + Digits2(d.day)
  }

  /** Every day written by the date input reads back as that day. */
  lemma ParseFormatIsoDate(d: CalendarDate)
    requires ValidDate(d)
    ensures ParseIsoDate(FormatIsoDate(d)) == Some(d)
  {
    var s := FormatIsoDate(d);
    assert s[..4] == Digits4(d.year);
    assert s[5..7] == Digits2(d.month);
    assert s[8..] == Digits2(d.day);
  }

  /** Two digits are the two-digit text of their value. */
  lemma Digits2OfDigits(s: string)
    requires |s| == 2 && AllDigits(s)
    ensures DigitsValue(s) < 100 && Digits2(DigitsValue(s)) == s
  {
    assert s[..1][..0] == [];
    assert DigitsValue(s[..1]) == DigitValue(s[0]);
    assert DigitsValue(s) == DigitValue(s[0]) * 10 + DigitValue(s[1]);
  }

  /** Four digits are the four-digit text of their value. */
  lemma Digits4OfDigits(s: string)
    requires |s| == 4 && AllDigits(s)
    ensures DigitsValue(s) < 10000 && Digits4(DigitsValue(s)) == s
  {
    var hi, lo := s[..2], s[2..];
    Digits2OfDigits(hi);
    Digits2OfDigits(lo);
    assert s[..3] == hi + [s[2]] && s[..3][..2] == hi;
    assert DigitsValue(s[..3]) == DigitsValue(hi) * 10 + DigitValue(s[2]);
    assert lo[..1][..0] == [] && DigitsValue(lo[..1]) == DigitValue(s[2]);
    assert DigitsValue(lo) == DigitValue(s[2]) * 10 + DigitValue(s[3]);
    var v, a, b := DigitsValue(s), DigitsValue(hi), DigitsValue(lo);
    assert v == a * 100 + b;
    assert v / 100 == a && v % 100 == b;
    assert s == hi + lo;
  }

  /**
   * Only the date input's own text reads as a day: whatever `ParseIsoDate` accepts is
   * exactly the `YYYY-MM-DD` text of the day it gives.
   */
  lemma IsoDateIsCanonical(s: string, d: CalendarDate)
    requires ParseIsoDate(s) == Some(d)
    ensures ValidDate(d) && s == FormatIsoDate(d)
  {
    Digits4OfDigits(s[..4]);
    Digits2OfDigits(s[5..7]);
    Digits2OfDigits(s[8..]);
    assert s == s[..4] + "-" + s[5..7] + "-" + s[8..];
  }

  /** The English month names, upper-cased, as the selector lists them. */
  const MonthNames: seq<string> :=
    ["JANUARY", "FEBRUARY", "MARCH", "APRIL", "MAY", "JUNE", "JULY", "AUGUST", "SEPTEMBER",
     "OCTOBER", "NOVEMBER", "DECEMBER"]

  /** The selected month and year, as the two selectors hold them. */
  datatype MonthYear = MonthYear(month: string, year: string)

  /** The selection the app starts with. */
  const InitialSelection := MonthYear("DECEMBER", "2025")

  /** `new Date(e.date)`; an entry without a date gives an Invalid Date too. */
  function DateOf(e: Record): Option<CalendarDate>
  {
    if Date in e then ParseIsoDate(e[Date]) else None
  }

  /** `d.toLocaleString('default', {month: 'long'}).toUpperCase()`. */
  function MonthLabel(d: Option<CalendarDate>): (name: string)
    ensures name in MonthNames <==> d.Some? && 1 <= d.value.month <= 12
  {
    match d
    case Some(c) => if 1 <= c.month <= 12 then MonthNames[c.month - 1] else ""
    case None => "INVALID DATE"
  }

  /** `d.getFullYear().toString()`: NaN for an Invalid Date. */
  function YearLabel(d: Option<CalendarDate>): (year: string)
    ensures d.None? ==> year == "NaN"
    ensures d.Some? ==> year != "NaN" && ParseFloat(year) == Some(d.value.year as real)
  {
    match d
    case Some(c) =>
      ParseIntToString(c.year);
      NumberOrZeroOfWord("NaN");
      IntToString(c.year)
    case None => "NaN"
  }

  /** The filter's test: the entry's month name and year are the selected ones. */
  predicate InMonth(e: Record, sel: MonthYear)
  {
    MonthLabel(DateOf(e)) == sel.month && YearLabel(DateOf(e)) == sel.year
  }

  /** The filter's test as the function value `filter` is given. */
  function Selects(sel: MonthYear): Record -> bool
  {
    e => InMonth(e, sel)
  }

  /**
   * For a month the selector offers, an entry is in the month exactly when it is dated
   * and its date has that month and year: undated entries and unreadable dates never are.
   */
  lemma InMonthExactly(e: Record, sel: MonthYear)
    requires sel.month in MonthNames
    ensures InMonth(e, sel) <==>
              DateOf(e).Some? && MonthNames[DateOf(e).value.month - 1] == sel.month &&
              IntToString(DateOf(e).value.year) == sel.year
  {
  }

  /** A day as a number that orders days as time does (12 * 32 + 31 < 416). */
  function DateKey(d: CalendarDate): int
  {
    d.year * 416 + d.month * 32 + d.day
  }

  /** Earlier in the calendar is exactly smaller in key; equal keys are the same day. */
  lemma DateKeyOrder(a: CalendarDate, b: CalendarDate)
    requires ValidDate(a) && ValidDate(b)
    ensures DateKey(a) < DateKey(b) <==>
              a.year < b.year || (a.year == b.year && a.month < b.month) ||
              (a.year == b.year && a.month == b.month && a.day < b.day)
    ensures DateKey(a) == DateKey(b) <==> a == b
  {
    if a.year < b.year {
      assert DateKey(a) <= a.year * 416 + 415 < b.year * 416 + 32 <= DateKey(b);
    } else if a.year > b.year {
      assert DateKey(b) <= b.year * 416 + 415 < a.year * 416 + 32 <= DateKey(a);
    }
  }

  /**
   * The sort key: `new Date(e.date).getTime()` compared by sign only, which is all the sort
   * looks at. The filtered entries all have a date, so the key of an Invalid Date is
   * never compared.
   */
  function SortKey(e: Record): int
  {
    match DateOf(e)
    case Some(d) => DateKey(d)
    case None => 0
  }

  /** `filteredEntries`: the month's entries, stably sorted by date. */
  function MonthEntries(entries: seq<Record>, sel: MonthYear): seq<Record>
  {
    StableSortBy(Filter(entries, Selects(sel)), SortKey)
  }

  /**
   * The month view holds exactly the entries of the selected month; it is a reordering of
   * the filtered journal, which is a subsequence of the journal; it is ordered by date; and
   * entries of the same day keep their journal order.
   */
  lemma MonthViewSpec(entries: seq<Record>, sel: MonthYear)
    ensures var view := MonthEntries(entries, sel);
            forall e :: e in view <==> e in entries && InMonth(e, sel)
    ensures multiset(MonthEntries(entries, sel)) == multiset(Filter(entries, Selects(sel)))
    ensures SubseqOf(Filter(entries, Selects(sel)), entries)
    ensures SortedBy(MonthEntries(entries, sel), SortKey)
    ensures forall k :: WithKey(MonthEntries(entries, sel), SortKey, k) ==
                        WithKey(Filter(entries, Selects(sel)), SortKey, k)
  {
    var kept := Filter(entries, Selects(sel));
    var view := MonthEntries(entries, sel);
    FilterMembers(entries, Selects(sel));
    FilterIsSubseq(entries, Selects(sel));
    forall e
      ensures e in view <==> e in entries && InMonth(e, sel)
    {
      assert e in view <==> e in multiset(view);
      assert e in kept <==> e in multiset(kept);
      if e in entries && InMonth(e, sel) {
        var i :| 0 <= i < |entries| && entries[i] == e;
        assert Selects(sel)(entries[i]);
      }
    }
  }

  /**
   * For a month the selector offers, every entry in the view has a readable date: the
   * printed journals can always draw its date cell.
   */
  lemma MonthEntriesDated(entries: seq<Record>, sel: MonthYear)
    requires sel.month in MonthNames
    ensures forall i :: 0 <= i < |MonthEntries(entries, sel)| ==>
              Date in MonthEntries(entries, sel)[i] && DateOf(MonthEntries(entries, sel)[i]).Some?
  {
    MonthViewSpec(entries, sel);
    var view := MonthEntries(entries, sel);
    forall i | 0 <= i < |view|
      ensures Date in view[i] && DateOf(view[i]).Some?
    {
      assert view[i] in view;
      assert InMonth(view[i], sel);
    }
  }
}
