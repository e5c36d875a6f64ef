/**
 * The two-page printed journal of components/PrintLayout.tsx. Page 1 holds at most 13
 * entries, padded with blank rows to exactly 13; page 2 holds the rest, then the total row,
 * then blank rows up to 15 rows; a struck-through overlay covers each run of blank rows.
 */
module PrintLayout {
  import opened Wrappers
  import opened Numbers
  import opened Strings
  import opened Types
  import opened Printing

  /** `PAGE_1_ROWS`: the entries page 1 holds. */
  const Page1Rows: nat := 13

  /** `MIN_ROWS_P2`: the entry and blank rows page 2 shows at least. */
  const MinRowsPage2: nat := 15

  /** The words printed for a total that is not positive. */
  const ZeroInWords: string := "Zero Only"

  /** The height in pixels the overlay gives each blank row it covers. */
  const RowHeight: int := 33

  /** `parseFloat(e.amount) || 0`: what an entry adds to the total. */
  function AmountValue(e: JournalEntry): real
  {
    NumberOrZero(e.amount)
  }

  /** `value || '-'`: an absent or empty optional column prints as a dash. */
  function OrDash(v: Option<string>): (cell: string)
    ensures cell != ""
    ensures v.Some? && v.value != "" ==> cell == v.value
    ensures v.None? || v.value == "" ==> cell == "-"
  {
    if v.Some? && v.value != "" then v.value else "-"
  }

  /** `TableRow`: the entry's twelve columns, left to right. */
  function TableRow(e: JournalEntry): (cells: seq<string>)
  {
    [DateCell(e.date), e.trainNo, e.depTime, e.arrTime, e.depStation, e.arrStation, e.distance,
     TierText(e.percentClaimed) + "%", e.purpose, e.amount, OrDash(e.otherDistance), OrDash(e.remarks)]
  }

  /**
   * An entry dated `YYYY-MM-DD` prints its date as `DD-MM`, its tier with a percent sign,
   * its amount as stored, and never leaves columns 11 and 12 empty.
   */
  lemma TableRowCells(e: JournalEntry, y: string, m: string, d: string)
    requires e.date == y + "-" + m + "-" + d
    requires '-' !in y && '-' !in m && '-' !in d
    ensures |TableRow(e)| == 12
    ensures TableRow(e)[0] == d + "-" + m
    ensures TableRow(e)[7] == TierText(e.percentClaimed) + "%"
    ensures TableRow(e)[9] == e.amount
    ensures TableRow(e)[10] != "" && TableRow(e)[11] != ""
  {
    DateCellOfIsoDate(y, m, d);
  }

  /** The rows of a run of entries, one per entry, in order. */
  function EntryRows(entries: seq<JournalEntry>): (rows: seq<Row>)
    ensures |rows| == |entries|
    ensures forall i :: 0 <= i < |entries| ==> rows[i] == EntryRow(TableRow(entries[i]))
  {
    seq(|entries|, i requires 0 <= i < |entries| => EntryRow(TableRow(entries[i])))
  }

  /** `EmptySpaceOverlay`: nothing for no rows, otherwise a box 33 pixels per row high. */
  function Overlay(rowCount: int): (height: Option<int>)
    ensures height.None? <==> rowCount <= 0
    ensures height.Some? ==> height.value == rowCount * RowHeight && height.value > 0
  {
    if rowCount <= 0 then None else Some(rowCount * RowHeight)
  }

  /** The figures `PrintLayout` works out before it draws anything. */
  datatype Layout = Layout(
    page1: seq<JournalEntry>,
    page2: seq<JournalEntry>,
    blanks1: nat,
    blanks2: nat,
    total: real,
    words: string)

  /**
   * Lines 84-91 of the component: the page split, the blank rows of each page, the total
   * and the total in words. The pages give back the entries in order; page 1 takes up to
   * 13 and is padded to exactly 13 rows; page 2 takes every other entry, none dropped, and
   * is padded to 15 rows when it has fewer; the total covers both pages.
   */
  function Paginate(entries: seq<JournalEntry>, toWords: real -> string): (l: Layout)
    ensures l.page1 + l.page2 == entries
    ensures |l.page1| == Min(|entries|, Page1Rows)
    ensures |l.page1| + l.blanks1 == Page1Rows
    ensures l.blanks1 == 0 <==> |entries| >= Page1Rows
    ensures |l.page2| + l.blanks2 >= MinRowsPage2
    ensures |l.page2| <= MinRowsPage2 ==> |l.page2| + l.blanks2 == MinRowsPage2
    ensures |l.page2| >= MinRowsPage2 ==> l.blanks2 == 0
    ensures l.total == Total(l.page1, AmountValue) + Total(l.page2, AmountValue)
    ensures l.total > 0.0 ==> l.words == toWords(l.total)
    ensures l.total <= 0.0 ==> l.words == ZeroInWords
  {
    var page1 := Take(entries, Page1Rows);
    var page2 := Drop(entries, Page1Rows);
    TakeDrop(entries, Page1Rows);
    TotalAppend(page1, page2, AmountValue);
    var total := Total(entries, AmountValue);
    Layout(page1, page2, Blanks(Page1Rows, |entries|), Blanks(MinRowsPage2, |page2|),
           total, InWords(total, toWords, ZeroInWords))
  }

  /** What the component draws: each page's rows and overlay, and the words line. */
  datatype Printout = Printout(
    page1: seq<Row>,
    overlay1: Option<int>,
    page2: seq<Row>,
    overlay2: Option<int>,
    words: string)

  /** Page 2's table body: its entries, the total row, then its blank rows. */
  function Page2Rows(l: Layout): seq<Row>
  {
    EntryRows(l.page2) + [TotalRow(l.total)] + BlankRows(l.blanks2)
  }

  /** Lines 136-162: entry rows, then (on page 2) the total row, then blank rows. */
  function Render(entries: seq<JournalEntry>, toWords: real -> string): Printout
  {
    var l := Paginate(entries, toWords);
    Printout(EntryRows(l.page1) + BlankRows(l.blanks1), Overlay(l.blanks1),
             Page2Rows(l), Overlay(l.blanks2), l.words)
  }

  /** Rows, then one more row, then blank rows: each row is where it was put. */
  lemma RowsThenBlanks(rows: seq<Row>, row: Row, blanks: nat)
    ensures var p := rows + [row] + BlankRows(blanks);
            |p| == |rows| + 1 + blanks && p[|rows|] == row &&
            (forall i :: 0 <= i < |rows| ==> p[i] == rows[i]) &&
            (forall i :: |rows| < i < |p| ==> p[i] == BlankRow)
  {
  }

  /** The rows of two runs of entries are the rows of the first, then those of the second. */
  lemma EntryRowsAppend(a: seq<JournalEntry>, b: seq<JournalEntry>)
    ensures EntryRows(a + b) == EntryRows(a) + EntryRows(b)
  {
    var r, ra, rb := EntryRows(a + b), EntryRows(a), EntryRows(b);
    forall i | 0 <= i < |a + b|
      ensures r[i] == (ra + rb)[i]
    {
      if i >= |a| {
        assert (a + b)[i] == b[i - |a|];
      }
    }
  }

  /**
   * Page 1 always has exactly 13 rows: the rows of the first entries, in order, then blank
   * rows.
   */
  lemma Page1Size(entries: seq<JournalEntry>, toWords: real -> string)
    ensures var p1 := Render(entries, toWords).page1;
            var l := Paginate(entries, toWords);
            |p1| == Page1Rows &&
            (forall i :: 0 <= i < |l.page1| ==> p1[i] == EntryRow(TableRow(entries[i]))) &&
            (forall i :: |l.page1| <= i < Page1Rows ==> p1[i] == BlankRow)
  {
  }

  /** Page 2's rows are laid out in this order for any figures with enough rows. */
  lemma Page2RowsShape(l: Layout)
    requires |l.page2| + l.blanks2 >= MinRowsPage2
    ensures var p2 := Page2Rows(l);
            |p2| >= MinRowsPage2 + 1 &&
            p2[|l.page2|] == TotalRow(l.total) &&
            (forall i :: 0 <= i < |l.page2| ==> p2[i] == EntryRow(TableRow(l.page2[i]))) &&
            (forall i :: |l.page2| < i < |p2| ==> p2[i] == BlankRow)
  {
    RowsThenBlanks(EntryRows(l.page2), TotalRow(l.total), l.blanks2);
  }

  /**
   * Page 2 shows its entries, then the total row (even when it has no entry), then only
   * blank rows, at least 16 rows in all.
   */
  lemma Page2Shape(entries: seq<JournalEntry>, toWords: real -> string)
    ensures var l := Paginate(entries, toWords);
            var p2 := Render(entries, toWords).page2;
            |p2| >= MinRowsPage2 + 1 &&
            p2[|l.page2|] == TotalRow(l.total) &&
            (forall i :: 0 <= i < |l.page2| ==> p2[i] == EntryRow(TableRow(l.page2[i]))) &&
            (forall i :: |l.page2| < i < |p2| ==> p2[i] == BlankRow)
  {
    Page2RowsShape(Paginate(entries, toWords));
  }

  /** For any figures, the rows each page starts with are the rows of both pages' entries. */
  lemma EntryRowsLead(l: Layout)
    ensures var p1 := EntryRows(l.page1) + BlankRows(l.blanks1);
            var p2 := Page2Rows(l);
            |l.page1| <= |p1| && |l.page2| <= |p2| &&
            p1[..|l.page1|] + p2[..|l.page2|] == EntryRows(l.page1 + l.page2)
  {
    var rows1, rows2 := EntryRows(l.page1), EntryRows(l.page2);
    var rest2: seq<Row> := [TotalRow(l.total)] + BlankRows(l.blanks2);
    assert Page2Rows(l) == rows2 + rest2;
    assert (rows1 + BlankRows(l.blanks1))[..|rows1|] == rows1;
    assert (rows2 + rest2)[..|rows2|] == rows2;
    EntryRowsAppend(l.page1, l.page2);
  }

  /**
   * Every entry is printed once, in order, across the two pages: the entry rows at the top
   * of page 1, followed by those at the top of page 2, are the rows of the whole month.
   */
  lemma EveryEntryPrinted(entries: seq<JournalEntry>, toWords: real -> string)
    ensures var p := Render(entries, toWords);
            var l := Paginate(entries, toWords);
            |l.page1| <= |p.page1| && |l.page2| <= |p.page2| &&
            p.page1[..|l.page1|] + p.page2[..|l.page2|] == EntryRows(entries)
  {
    EntryRowsLead(Paginate(entries, toWords));
  }

  /**
   * Page 1's overlay is drawn exactly when fewer than 13 entries are printed, and covers
   * the blank rows that fill the page; page 2's exactly when it has fewer than 15 entries.
   */
  lemma OverlayCoversBlanks(entries: seq<JournalEntry>, toWords: real -> string)
    ensures var p := Render(entries, toWords);
            (p.overlay1.Some? <==> |entries| < Page1Rows) &&
            (p.overlay1.Some? ==> p.overlay1.value == (Page1Rows - |entries|) * RowHeight)
    ensures var p := Render(entries, toWords);
            var l := Paginate(entries, toWords);
            (p.overlay2.Some? <==> |l.page2| < MinRowsPage2) &&
            (p.overlay2.Some? ==> p.overlay2.value == (MinRowsPage2 - |l.page2|) * RowHeight)
  {
  }

  /**
   * A month with no entries prints 13 blank rows under a struck-through overlay on page 1,
   * and on page 2 the total row with 0 followed by 15 blank rows under an overlay, and
   * "Zero Only".
   */
  lemma EmptyMonth(toWords: real -> string)
    ensures Render([], toWords) ==
              Printout(BlankRows(Page1Rows), Some(Page1Rows * RowHeight),
                       [TotalRow(0.0)] + BlankRows(MinRowsPage2), Some(MinRowsPage2 * RowHeight), ZeroInWords)
  {
    var l := Paginate([], toWords);
    assert l.page1 == [] && l.page2 == [];
    assert EntryRows([]) == [];
  }

  /** The total is the sum over every entry, page 1 and page 2 alike. */
  lemma TotalIsWholeMonth(entries: seq<JournalEntry>, toWords: real -> string)
    ensures Paginate(entries, toWords).total == Total(entries, AmountValue)
  {
    var l := Paginate(entries, toWords);
    TotalAppend(l.page1, l.page2, AmountValue);
  }

  /**
   * An entry whose amount is not a number (empty, or text) adds nothing to the total, and
   * an amount written as an integer adds that integer.
   */
  lemma TotalOfOneMoreEntry(entries: seq<JournalEntry>, e: JournalEntry)
    ensures ParseFloat(e.amount).None? ==> Total(entries + [e], AmountValue) == Total(entries, AmountValue)
    ensures forall n: int :: e.amount == IntToString(n) ==>
              Total(entries + [e], AmountValue) == Total(entries, AmountValue) + n as real
  {
    var s := entries + [e];
    assert s[..|s| - 1] == entries && s[|s| - 1] == e;
    forall n: int | e.amount == IntToString(n)
      ensures AmountValue(e) == n as real
    {
      NumberOrZeroOfInt(n);
    }
  }

  /** A month with nothing claimed, or only unreadable amounts, is written as "Zero Only". */
  lemma NothingClaimed(entries: seq<JournalEntry>, toWords: real -> string)
    requires forall i :: 0 <= i < |entries| ==> ParseFloat(entries[i].amount).None?
    ensures Paginate(entries, toWords).total == 0.0
    ensures Paginate(entries, toWords).words == ZeroInWords
  {
    TotalIsWholeMonth(entries, toWords);
    TotalOfZeros(entries, AmountValue);
  }
}
