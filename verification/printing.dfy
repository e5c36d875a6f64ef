/**
 * What both printable journals share: slicing the month's entries into pages, padding a
 * table with blank rows, the grand total of the amount column with its words, and the
 * `DD-MM` date cell.
 */
module Printing {
  import opened Numbers
  import opened Strings

  /** A row of a printed table: an entry's twelve cells, the total row, or a blank row. */
  datatype Row = EntryRow(cells: seq<string>) | TotalRow(total: real) | BlankRow

  function Min(a: int, b: int): int { if a <= b then a else b }

  /** `entries.slice(n)`: everything after the first `n` entries. */
  function Drop<T>(s: seq<T>, n: nat): (r: seq<T>)
    ensures |r| == if n <= |s| then |s| - n else 0
    ensures r == s[|s| - |r|..]
  {
    if n <= |s| then s[n..] else []
  }

  /** `slice(0, n)` and `slice(n)` together give back the whole sequence. */
  lemma TakeDrop<T>(s: seq<T>, n: nat)
    ensures Take(s, n) + Drop(s, n) == s
    ensures |Take(s, n)| == Min(|s|, n)
  {
    if n <= |s| {
      assert s[..n] + s[n..] == s;
    }
  }

  /**
   * `Math.max(0, limit - rows)`: the blank rows that pad a table of `rows` entries; the
   * table then has `limit` rows when the entries fit, and no blank row when they do not.
   */
  function Blanks(limit: int, rows: int): (b: nat)
    ensures rows + b >= limit
    ensures rows <= limit ==> rows + b == limit
    ensures rows >= limit ==> b == 0
  {
    if limit - rows > 0 then limit - rows else 0
  }

  /** `n` blank rows. */
  function BlankRows(n: nat): (r: seq<Row>)
    ensures |r| == n && forall i :: 0 <= i < n ==> r[i] == BlankRow
  {
    seq(n, _ => BlankRow)
  }

  /**
   * `entries.reduce((sum, e) => sum + value(e), 0)`: the values summed from the left. Both
   * journals sum `parseFloat(e.amount) || 0`, which their own modules pass as `valueOf`.
   */
  function Total<T>(entries: seq<T>, valueOf: T -> real): real
  {
    if entries == [] then 0.0
    else Total(entries[..|entries| - 1], valueOf) + valueOf(entries[|entries| - 1])
  }

  /** The total of two runs of entries is the sum of their totals. */
  lemma {:induction false} TotalAppend<T>(a: seq<T>, b: seq<T>, valueOf: T -> real)
    ensures Total(a + b, valueOf) == Total(a, valueOf) + Total(b, valueOf)
  {
    if b != [] {
      var c := a + b;
      assert c[..|c| - 1] == a + b[..|b| - 1] && c[|c| - 1] == b[|b| - 1];
      TotalAppend(a, b[..|b| - 1], valueOf);
    } else {
      assert a + b == a;
    }
  }

  /** Entries that are all worth 0 total 0. */
  lemma {:induction false} TotalOfZeros<T>(entries: seq<T>, valueOf: T -> real)
    requires forall i :: 0 <= i < |entries| ==> valueOf(entries[i]) == 0.0
    ensures Total(entries, valueOf) == 0.0
  {
    if entries != [] {
      TotalOfZeros(entries[..|entries| - 1], valueOf);
    }
  }

  /** Entries that are all worth at most 0 total at most 0. */
  lemma {:induction false} TotalNonPositive<T>(entries: seq<T>, valueOf: T -> real)
    requires forall i :: 0 <= i < |entries| ==> valueOf(entries[i]) <= 0.0
    ensures Total(entries, valueOf) <= 0.0
  {
    if entries != [] {
      TotalNonPositive(entries[..|entries| - 1], valueOf);
    }
  }

  /** The sum of a sequence of integers. */
  function Sum(xs: seq<int>): int
  {
    if xs == [] then 0 else Sum(xs[..|xs| - 1]) + xs[|xs| - 1]
  }

  /** Entries worth whole amounts total the sum of those integers. */
  lemma {:induction false} TotalOfIntegers<T>(entries: seq<T>, valueOf: T -> real, amounts: seq<int>)
    requires |amounts| == |entries|
    requires forall i :: 0 <= i < |entries| ==> valueOf(entries[i]) == amounts[i] as real
    ensures Total(entries, valueOf) == Sum(amounts) as real
  {
    if entries != [] {
      var n := |entries|;
      TotalOfIntegers(entries[..n - 1], valueOf, amounts[..n - 1]);
      assert amounts[..n - 1] == amounts[..|amounts| - 1];
    }
  }

  /**
   * `total > 0 ? toWords.convert(total) : zero`: the converter's text, unmodified, for a
   * positive total, and the zero text for any other.
   */
  function InWords(total: real, toWords: real -> string, zero: string): (w: string)
    ensures total > 0.0 ==> w == toWords(total)
    ensures total <= 0.0 ==> w == zero
  {
    if total > 0.0 then toWords(total) else zero
  }

  /** A month whose entries are all worth at most 0 is written out as the zero text. */
  lemma NothingClaimedInWords<T>(entries: seq<T>, valueOf: T -> real, toWords: real -> string, zero: string)
    requires forall i :: 0 <= i < |entries| ==> valueOf(entries[i]) <= 0.0
    ensures InWords(Total(entries, valueOf), toWords, zero) == zero
  {
    TotalNonPositive(entries, valueOf);
  }

  /** `date.split('-').reverse().slice(0, 2).join('-')`. */
  function DateCell(date: string): (cell: string)
  {
    Join(Take(Reverse(Split(date, '-')), 2), '-')
  }

  /** An ISO date `YYYY-MM-DD` is printed as `DD-MM`. */
  lemma DateCellOfIsoDate(y: string, m: string, d: string)
    requires '-' !in y && '-' !in m && '-' !in d
    ensures DateCell(y + "-" + m + "-" + d) == d + "-" + m
  {
    var parts := [y, m, d];
    assert Join(parts, '-') == y + "-" + m + "-" + d by {
      assert Join(parts[2..], '-') == d;
      assert Join(parts[1..], '-') == m + "-" + d;
    }
    SplitJoin(parts, '-');
    var rev := Reverse(parts);
    assert rev == [d, m, y];
    assert Take(rev, 2) == [d, m];
    assert Join([d, m], '-') == d + "-" + m by {
      assert Join([d, m][1..], '-') == m;
    }
  }

  /** Text without a dash, such as an empty date, is printed as it is. */
  lemma DateCellWithoutDash(s: string)
    requires '-' !in s
    ensures DateCell(s) == s
  {
    SplitWithoutSeparator(s, '-');
    assert Reverse([s]) == [s];
  }
}
