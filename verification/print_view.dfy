/**
 * The printed journal of the single-file app (`PrintView` in index.tsx). It works on the
 * app's untyped entry objects: page 1 takes up to 15 entries, page 2 the rest, and each
 * table it draws is padded with blank rows up to 15 rows.
 */
module PrintView {
  import opened Wrappers
  import opened Numbers
  import opened Strings
  import opened Types
  import opened Printing

  /** `PAGE_LIMIT`: the entries page 1 holds, and the rows every table shows at least. */
  const PageLimit: nat := 15

  /** The words printed for a total that is not positive. */
  const ZeroInWords: string := "ZERO ONLY"

  /** `parseFloat(e.amount) || 0`; an absent amount reads as `"undefined"`, which is NaN. */
  function AmountValue(e: Record): real
  {
    NumberOrZero(Text(Get(e, Amount)))
  }

  /** `{value}` in a cell: an absent value shows nothing. */
  function Shown(v: Option<string>): string
  {
    match v
    case Some(s) => s
    case None => ""
  }

  /**
   * One entry's twelve cells. `e.date.split` fails on an entry without a date, so the row
   * is drawn only for entries that have one; every entry the app prints does.
   */
  function EntryCells(e: Record): (cells: seq<string>)
    requires Date in e
    ensures |cells| == 12
    ensures cells[0] == DateCell(e[Date])
    ensures cells[9] == Shown(Get(e, Amount))
    ensures cells[10] == Shown(Get(e, PvtDist)) && cells[11] == Shown(Get(e, RefItem))
  {
    [DateCell(e[Date]), Shown(Get(e, TrainNo)), Shown(Get(e, DepTime)), Shown(Get(e, ArrTime)),
     Shown(Get(e, DepStation)), Shown(Get(e, ArrStation)), Shown(Get(e, Distance)),
     Shown(Get(e, PercentClaimed)) + "%", Shown(Get(e, Purpose)), Shown(Get(e, Amount)),
     Shown(Get(e, PvtDist)), Shown(Get(e, RefItem))]
  }

  predicate AllDated(entries: seq<Record>)
  {
    forall i :: 0 <= i < |entries| ==> Date in entries[i]
  }

  /**
   * `renderTableRows(data)`: a row per entry, in order, then `max(0, 15 - data.length)`
   * blank rows, so that every table shows at least 15 rows, exactly 15 when the entries
   * fit, and no blank row when they do not.
   */
  function TableRows(data: seq<Record>): (rows: seq<Row>)
    requires AllDated(data)
    ensures |rows| >= PageLimit
    ensures |data| <= PageLimit ==> |rows| == PageLimit
    ensures |data| >= PageLimit ==> |rows| == |data|
    ensures forall i :: 0 <= i < |data| ==> rows[i] == EntryRow(EntryCells(data[i]))
    ensures forall i :: |data| <= i < |rows| ==> rows[i] == BlankRow
  {
    seq(|data|, i requires 0 <= i < |data| => EntryRow(EntryCells(data[i])))
      + BlankRows(Blanks(PageLimit, |data|))
  }

  /** Page 1's table: the first 15 entries. */
  function FirstTable(entries: seq<Record>): seq<Row>
    requires AllDated(entries)
  {
    TableRows(Take(entries, PageLimit))
  }

  /** `page2Entries.length > 0 && <table>`: page 2's table, drawn only for entries past the 15th. */
  function SecondTable(entries: seq<Record>): Option<seq<Row>>
    requires AllDated(entries)
  {
    var page2 := Drop(entries, PageLimit);
    if |page2| > 0 then Some(TableRows(page2)) else None
  }

  /** What `PrintView` draws: page 1's table, page 2's table if any, and the words line. */
  datatype View = View(table1: seq<Row>, table2: Option<seq<Row>>, total: real, words: string)

  /** Lines 149-153 and 200-207 of index.tsx. */
  function Print(entries: seq<Record>, toWords: real -> string): (v: View)
    requires AllDated(entries)
    ensures v.table1 == FirstTable(entries) && v.table2 == SecondTable(entries)
    ensures v.total > 0.0 ==> v.words == toWords(v.total)
    ensures v.total <= 0.0 ==> v.words == ZeroInWords
  {
    var total := Total(entries, AmountValue);
    View(FirstTable(entries), SecondTable(entries), total, InWords(total, toWords, ZeroInWords))
  }

  /** Page 1 prints the first `min(n, 15)` entries, in order, in exactly 15 rows. */
  lemma FirstTableSpec(entries: seq<Record>)
    requires AllDated(entries)
    ensures var t := FirstTable(entries);
            |t| == PageLimit &&
            (forall i :: 0 <= i < PageLimit && i < |entries| ==> t[i] == EntryRow(EntryCells(entries[i]))) &&
            (forall i :: |entries| <= i < PageLimit ==> t[i] == BlankRow)
  {
    var page1 := Take(entries, PageLimit);
    forall i | 0 <= i < PageLimit && i < |entries|
      ensures page1[i] == entries[i]
    {
    }
  }

  /**
   * Page 2's table is drawn exactly when there are more than 15 entries, and then prints
   * every entry after the 15th, in order, in at least 15 rows: no entry is left out.
   */
  lemma SecondTableSpec(entries: seq<Record>)
    requires AllDated(entries)
    ensures var t := SecondTable(entries);
            (t.Some? <==> |entries| > PageLimit) &&
            (t.Some? ==>
              |t.value| >= PageLimit &&
              forall i :: PageLimit <= i < |entries| ==> t.value[i - PageLimit] == EntryRow(EntryCells(entries[i])))
  {
    var page2 := Drop(entries, PageLimit);
    if |page2| > 0 {
      var rows := TableRows(page2);
      forall i | PageLimit <= i < |entries|
        ensures rows[i - PageLimit] == EntryRow(EntryCells(entries[i]))
      {
        assert page2[i - PageLimit] == entries[i];
      }
    }
  }

  /**
   * A month with no entries prints page 1 as 15 blank rows, no page 2 table, a total of 0
   * and "ZERO ONLY".
   */
  lemma EmptyMonth(toWords: real -> string)
    ensures Print([], toWords) == View(BlankRows(PageLimit), None, 0.0, ZeroInWords)
  {
    var none: seq<Record> := [];
    assert Take(none, PageLimit) == [];
    assert TableRows(none) == BlankRows(PageLimit);
  }

  /**
   * Sixteen entries fill page 1 with 15 entry rows and no blank row; page 2 shows the 16th
   * entry and then 14 blank rows.
   */
  lemma SixteenEntries(entries: seq<Record>)
    requires |entries| == 16 && AllDated(entries)
    ensures forall i :: 0 <= i < PageLimit ==> FirstTable(entries)[i] == EntryRow(EntryCells(entries[i]))
    ensures SecondTable(entries).Some?
    ensures var t := SecondTable(entries).value;
            |t| == PageLimit && t[0] == EntryRow(EntryCells(entries[15])) &&
            forall i :: 1 <= i < PageLimit ==> t[i] == BlankRow
  {
    FirstTableSpec(entries);
    SecondTableSpec(entries);
  }

  /** The total covers both pages, and is what each page's entries add up to. */
  lemma TotalOfBothPages(entries: seq<Record>, toWords: real -> string)
    requires AllDated(entries)
    ensures Print(entries, toWords).total ==
              Total(Take(entries, PageLimit), AmountValue) + Total(Drop(entries, PageLimit), AmountValue)
  {
    TakeDrop(entries, PageLimit);
    TotalAppend(Take(entries, PageLimit), Drop(entries, PageLimit), AmountValue);
  }

  /**
   * Entries without a readable amount, including entries with no amount at all, add
   * nothing; a month of them is written as "ZERO ONLY".
   */
  lemma UnreadableAmountsInWords(entries: seq<Record>, toWords: real -> string)
    requires AllDated(entries)
    requires forall i :: 0 <= i < |entries| ==> ParseFloat(Text(Get(entries[i], Amount))).None?
    ensures Print(entries, toWords).total == 0.0
    ensures Print(entries, toWords).words == ZeroInWords
  {
    TotalOfZeros(entries, AmountValue);
  }

  /** An entry with no amount key reads as NaN and so counts 0. */
  lemma MissingAmountCountsZero(e: Record)
    requires Amount !in e
    ensures AmountValue(e) == 0.0
  {
    NumberOrZeroOfWord("undefined");
  }
}
