# Railway TA journal: a verified model of the claim and journal logic

The Railway TA Journal app records one railway employee's daily journeys for a travelling
allowance (TA) claim and prints them as the two-page form *GA 31 SRC/G 1677*. This project
models in Dafny the parts of the app that compute and arrange things. Markup and storage are
not modelled.

- **The claim rule** (`Calculator`). A day's claim is `Math.round(rate × factor)`. The factor
  is 1, 0.7 or 0.3 for the tiers `100`, `70` and `30`, and 0 for `Nil` and for any other text.
- **The entry form** of components/EntryModal.tsx (`EntryModal`). A draft entry, `formData`,
  is handled as follows:
  - it is reset to the defaults and priced at the full tier when the form opens for a new
    entry, or loaded unchanged when the form opens for an edit;
  - it is changed one field at a time, and priced again only when the tier changes, so a
    hand-typed amount survives;
  - it is merged with what the free-text parser recognised;
  - it is submitted as an entry that keeps the edited entry's id.

  Each transition is a function on the draft. The class `EntryForm` holds the draft and
  applies the transitions as the component's handlers do.
- **The single-file app** of index.tsx (`App`, `MonthView`, `PrintView`):
  - its own entry form's save, which prices the entry from the form's `rate`;
  - the app state (`JournalApp`), holding the profiles, the active profile id, the entries and
    the selected month;
  - the handlers that replace that state: save a profile, save an entry, delete an entry,
    select a month or a year;
  - the current-profile lookup with its fallbacks;
  - the month view, which filters the entries by month name and year and sorts them stably
    by date;
  - the printed journal `PrintView`. It has a 15-entry page 1, a page 2 table only when there
    are more than 15 entries, every table padded to 15 rows, and the total in words.
- **The two-page printout** of components/PrintLayout.tsx (`PrintLayout`):
  - page 1 has 13 rows;
  - page 2 has its entries, then the total row, then blank rows up to 15;
  - a struck-through overlay 33 pixels high per blank row covers each run of blank rows;
  - the `DD-MM` date cell, and a dash for an empty optional column.

The two printouts share `Printing`: slicing, padding, the left-to-right `reduce` total of
`parseFloat(amount) || 0`, the zero fallback of the words line, and the date cell.

**Records and numbers.** Entries and profiles follow types.ts (`Types`). The untyped
JavaScript objects that forms, drafts and the single-file app work on are maps from field
names to text. A key that is absent is `undefined`. `parseFloat` is modelled concretely in
`Numbers`, with `None` for NaN. The model covers:
- leading white space, a sign, digits, a fraction and an exponent;
- the longest numeric prefix;
- `Math.round` as `floor(x + 1/2)`;
- integer `toString`.

Amounts and rates are exact rationals.

**Injected inputs.** The amount-to-words converter is the parameter `toWords`. The values
that the following would give are parameters too:
- `Date.now().toString()`, as `freshId`;
- today's date, as `today`;
- the free-text parser's result, as `parsed`;
- the values loaded from storage, as the `JournalApp` constructor's arguments.

**Behaviour of the code worth noting.**
- components/PrintLayout.tsx always puts the total row on page 2, even when page 1 holds every
  entry.
- `PrintView` in index.tsx draws no total row. It shows no page 2 table when there are 15
  entries or fewer, so a month with no entries prints one padded table, not two.
- The month filter compares the upper-cased month name exactly with the selector's text,
  with no case folding of the selector.
- The single-file form saves the amount `"NaN"` when its rate is not empty but not a number.
  That amount then counts 0 in the total.
- `handleSubmit` in components/EntryModal.tsx spreads the draft after the id. A draft that
  already has an id therefore keeps it.
- The response schema of services/geminiService.ts lists no `distance`, so `ParserFields`
  leaves it out.

## Model

| member | source | states |
|---|---|---|
| Types.ParseTier | types.ts:26 | only the four tier texts read as a tier, each as the tier whose text it is |
| Types.ParseTierText | types.ts:26 | every tier's text reads back as that tier |
| Types.EntryToRecord | types.ts:16-30 | an entry seen as an object has each of its values under its key, and the optional columns only when present |
| Types.EntryRecordRoundTrip | types.ts:16-30 | a typed entry seen as an object and read back as an entry is the same entry |
| Types.RecordToEntry | types.ts:16-30 | an object reads as an entry exactly when it has every required key and a `percentClaimed` that names a tier; `RecordEntryRoundTrip` shows the entry keeps every key's value |
| Types.RecordEntryRoundTrip | types.ts:16-30 | an object that reads as an entry gives back every entry key unchanged when seen as an object again |
| Numbers.TrimStart | components/EntryModal.tsx:39 | `parseFloat` drops exactly the leading white space, a suffix of the text that starts with no space |
| Numbers.ParseUnsignedDigits | components/EntryModal.tsx:39 | a non-empty run of digits is read as its decimal value |
| Numbers.ParseIntToString | components/EntryModal.tsx:39 | `parseFloat` reads back the numeral `toString` gives for any integer |
| Numbers.IntToString | components/EntryModal.tsx:49 | `amt.toString()` is never empty and is all digits for a non-negative integer |
| Numbers.IntToStringInjective | components/EntryModal.tsx:49 | two different amounts never print alike |
| Numbers.RoundHalfUp | components/EntryModal.tsx:48 | `Math.round(x)` lies in `(x - 1/2, x + 1/2]` |
| Numbers.RoundHalfUpMonotone | components/EntryModal.tsx:48 | rounding keeps order |
| Numbers.RoundHalfUpOfInteger | components/EntryModal.tsx:48 | rounding an integer gives it back |
| Numbers.ParseFloat | components/EntryModal.tsx:39 | `parseFloat`: leading white space, a sign, the longest numeric prefix; `ParseIntToString` shows it reads back every integer numeral and `NumberOrZeroOfWord` that text not starting a number is NaN |
| Numbers.NumberOrZero | components/PrintLayout.tsx:90 | `parseFloat(x) \|\| 0`; `NumberOrZeroOfInt` and `NumberOrZeroOfWord` show an integer numeral counts as itself and `NaN` or `undefined` as 0 |
| Numbers.NumberOrZeroOfInt | components/PrintLayout.tsx:90 | an amount written as an integer counts as that integer in `parseFloat(amount) \|\| 0` |
| Numbers.NumberOrZeroOfWord | components/PrintLayout.tsx:90 | text that does not start a number, such as `NaN` or `undefined`, is NaN and counts 0 |
| Strings.Split | components/PrintLayout.tsx:47 | `split('-')` gives at least one piece and no piece holds a dash |
| Strings.Reverse | components/PrintLayout.tsx:47 | `reverse()` puts element `n-1-i` at `i` |
| Strings.Take | components/PrintLayout.tsx:47 | `slice(0, n)` is the first `min(n, length)` elements |
| Strings.Join | components/PrintLayout.tsx:47 | `join('-')`; `JoinSplit` and `SplitJoin` show it is the inverse of `split('-')` |
| Strings.JoinSplit | components/PrintLayout.tsx:47 | joining the pieces of a split gives back the text |
| Strings.SplitJoin | components/PrintLayout.tsx:47 | splitting a join of dash-free pieces gives back the pieces |
| Strings.SplitWithoutSeparator | components/PrintLayout.tsx:47 | text without a dash splits into itself alone |
| Printing.Drop | components/PrintLayout.tsx:86 | `slice(n)` is the suffix after the first `n` entries, empty when there are fewer |
| Printing.TakeDrop | components/PrintLayout.tsx:85-86 | page 1 followed by page 2 is the whole month, and page 1 has `min(n, k)` entries |
| Printing.Blanks | components/PrintLayout.tsx:87 | `Math.max(0, limit - rows)` pads to at least `limit` rows, exactly `limit` when the rows fit, and adds none when they do not |
| Printing.BlankRows | components/PrintLayout.tsx:137 | `Array.from({length: n})` of empty rows is `n` blank rows |
| Printing.Total | components/PrintLayout.tsx:90 | the left-to-right `reduce` sum; `TotalAppend`, `TotalOfZeros`, `TotalNonPositive` and `TotalOfIntegers` characterise it |
| Printing.TotalAppend | components/PrintLayout.tsx:90 | the `reduce` total of two runs of entries is the sum of their totals |
| Printing.TotalOfZeros | components/PrintLayout.tsx:90 | entries worth nothing total 0 |
| Printing.TotalNonPositive | components/PrintLayout.tsx:90 | entries worth at most 0 total at most 0 |
| Printing.TotalOfIntegers | components/PrintLayout.tsx:90 | entries worth whole amounts total the integer sum of the amounts |
| Printing.InWords | components/PrintLayout.tsx:91 | a positive total is written as the converter's text, unchanged; any other as the zero text |
| Printing.NothingClaimedInWords | components/PrintLayout.tsx:90-91 | a month whose entries are all worth at most 0 is written as the zero text |
| Printing.DateCell | components/PrintLayout.tsx:47 | `split('-').reverse().slice(0, 2).join('-')`; `DateCellOfIsoDate` shows `YYYY-MM-DD` prints as `DD-MM`, `DateCellWithoutDash` that dash-free text prints as it is |
| Printing.DateCellOfIsoDate | components/PrintLayout.tsx:47 | a date `YYYY-MM-DD` prints as `DD-MM` |
| Printing.DateCellWithoutDash | components/PrintLayout.tsx:47 | text without a dash, such as an empty date, prints as it is |
| PrintLayout.OrDash | components/PrintLayout.tsx:57-58 | `value \|\| '-'` is the value when non-empty and a dash otherwise, never empty |
| PrintLayout.AmountValue | components/PrintLayout.tsx:90 | what an entry adds to the total, `parseFloat(e.amount) \|\| 0`; `TotalOfOneMoreEntry` shows a non-numeric amount adds 0 and an integer amount adds itself |
| PrintLayout.TableRow | components/PrintLayout.tsx:45-60 | the twelve cells of `TableRow`; `TableRowCells` states the date, tier, amount and dash columns |
| PrintLayout.TableRowCells | components/PrintLayout.tsx:45-60 | a row has twelve cells: the `DD-MM` date, the tier with `%`, the amount as stored, and non-empty columns 11 and 12 |
| PrintLayout.EntryRows | components/PrintLayout.tsx:136 | one row per entry, in order |
| PrintLayout.Overlay | components/PrintLayout.tsx:70-72 | no overlay for `rowCount <= 0`, otherwise one `rowCount * 33` pixels high |
| PrintLayout.Paginate | components/PrintLayout.tsx:83-91 | the pages give back the entries in order; page 1 has `min(n, 13)` entries padded to exactly 13 rows, with no blank row when `n >= 13`; page 2 is never cut and is padded to at least 15 rows, exactly 15 when it fits, with no blank row when it has 15 entries or more; the total is both pages' totals; the words follow the zero rule |
| PrintLayout.Render | components/PrintLayout.tsx:136-162 | each page's rows and overlay and the words line; `Page1Size`, `Page2Shape`, `OverlayCoversBlanks`, `EveryEntryPrinted` and `EmptyMonth` state its shape |
| PrintLayout.RowsThenBlanks | components/PrintLayout.tsx:153-159 | rows, then one row, then blank rows: each is where it was put |
| PrintLayout.EntryRowsAppend | components/PrintLayout.tsx:136-153 | the rows of two runs of entries are the first run's rows followed by the second's |
| PrintLayout.Page1Size | components/PrintLayout.tsx:136-137 | page 1 always has exactly 13 rows: the rows of its entries, in the month's order, then only blank rows |
| PrintLayout.Page2RowsShape | components/PrintLayout.tsx:153-159 | page 2 has its entry rows, the total row, then only blank rows, at least 16 rows |
| PrintLayout.Page2Shape | components/PrintLayout.tsx:153-159 | the printed page 2 has its entries in order, then the total row even with no entry, then only blank rows, at least 16 rows in all |
| PrintLayout.EntryRowsLead | components/PrintLayout.tsx:136-159 | for any page split, the rows each printed page starts with are the rows of all its entries, in order |
| PrintLayout.EveryEntryPrinted | components/PrintLayout.tsx:84-86 | every entry is printed once, in order: the entry rows at the top of page 1 of the printout, then those at the top of page 2, are the rows of the whole month |
| PrintLayout.OverlayCoversBlanks | components/PrintLayout.tsx:140-162 | page 1's overlay is drawn exactly when fewer than 13 entries are printed, and covers `13 - n` rows; page 2's exactly when it has fewer than 15 entries, and covers the rest |
| PrintLayout.EmptyMonth | components/PrintLayout.tsx:83-162 | no entries: 13 blank rows under an overlay, then a total row of 0 and 15 blank rows under an overlay, and "Zero Only" |
| PrintLayout.TotalIsWholeMonth | components/PrintLayout.tsx:90 | the total is the `reduce` sum over every entry |
| PrintLayout.TotalOfOneMoreEntry | components/PrintLayout.tsx:90 | an entry with a non-numeric amount adds nothing; one with an integer amount adds that integer |
| PrintLayout.NothingClaimed | components/PrintLayout.tsx:90-91 | a month of unreadable amounts totals 0 and is written "Zero Only" |
| Calculator.Factor | components/EntryModal.tsx:42-46 | the factor of a tier text, the last matching `if` winning; `FactorIsShare` bounds it |
| Calculator.FactorIsShare | components/EntryModal.tsx:42-46 | every factor lies between 0 and 1, is positive exactly for "100", "70" and "30", and is 1 exactly for "100" |
| Calculator.ClaimAmount | components/EntryModal.tsx:42-48 | the claim is within half a rupee of `rate × factor`, with the factor table of the tiers |
| Calculator.UnknownTierClaimsNothing | components/EntryModal.tsx:42-46 | `Nil` and any text that is not a tier claim 0 |
| Calculator.FullTierClaimsRate | components/EntryModal.tsx:43 | at tier 100 a whole-rupee rate is claimed exactly |
| Calculator.TierOrder | components/EntryModal.tsx:42-48 | for a non-negative rate, `Nil` claims 0 and 30% ≤ 70% ≤ 100% |
| Calculator.ClaimBounds | components/EntryModal.tsx:42-48 | on a non-negative rate every tier claims between 0 and the rate rounded |
| Calculator.ClaimsOn500 | components/EntryModal.tsx:38-49 | a rate of "500" reads as 500 and claims "500" at tier 100 and "350" at tier 70 |
| EntryModal.DefaultDraft | components/EntryModal.tsx:15-20 | the draft a new entry starts from; `Opened` states its keys and values |
| EntryModal.Priced | components/EntryModal.tsx:38-50 | with a rate that is not a number the draft is unchanged; otherwise the tier is `percent`, the amount is the claim's numeral, and every other key is kept with no key added |
| EntryModal.PricedAmountReadsBack | components/EntryModal.tsx:48-49 | the amount pricing writes counts in the totals as the claim itself |
| EntryModal.Changed | components/EntryModal.tsx:52-59 | the named field takes the value; only a change of tier prices the draft again, and a tier change with an unreadable rate leaves the amount as it was; no other key changes |
| EntryModal.Merged | components/EntryModal.tsx:65-67 | the merged draft has the parsed keys with the parsed values and every other draft key unchanged; an empty result changes nothing |
| EntryModal.SubmitId | components/EntryModal.tsx:74 | the edited entry's id when it has a non-empty one; the fresh id for a new entry and for an edited entry with an empty id |
| EntryModal.Submitted | components/EntryModal.tsx:73-76 | the saved entry has the draft's keys and values plus an id, which is the submit id unless the draft has its own |
| EntryModal.Opened | components/EntryModal.tsx:24-36 | an edited entry is loaded as it is; otherwise the draft has exactly today's date, tier 100, "Official Duty" and the full-tier claim, or an empty amount when the rate is not a number |
| EntryModal.MergeKeepsClaim | components/EntryModal.tsx:64-67 | a parser result within its schema never changes the draft's id, tier or amount |
| EntryModal.EditRoundTrip | components/EntryModal.tsx:24-78 | opening an entry for edit and submitting it untouched saves that very entry, with its own id |
| EntryModal.NewEntryGetsFreshId | components/EntryModal.tsx:73-76 | a new entry is saved under the fresh id with the draft's amount |
| EntryModal.ChangeKeepsIdAbsent | components/EntryModal.tsx:52-59 | edits of other fields never bring an id into a new entry's draft |
| EntryModal.HandTypedAmountSurvives | components/EntryModal.tsx:52-59 | an amount typed by hand survives any later edit of a field other than the amount and the tier |
| EntryModal.NewEntryAtSeventyPercent | components/EntryModal.tsx:24-59 | with a daily rate of "500" a new entry opens at "500", and switching it to tier 70 gives "350" |
| EntryModal.EntryForm.constructor | components/EntryModal.tsx:15-21 | the form starts with the default draft and an empty free-text box |
| EntryModal.EntryForm.Open | components/EntryModal.tsx:24-36 | the opening effect leaves the draft as `Opened` describes |
| EntryModal.EntryForm.CalculateAmount | components/EntryModal.tsx:38-50 | the factor chosen tier by tier and `Math.round` leave the draft as `Priced` describes |
| EntryModal.EntryForm.HandleChange | components/EntryModal.tsx:52-59 | the field update, then the repricing for a tier change, leave the draft as `Changed` describes |
| EntryModal.EntryForm.SetNaturalInput | components/EntryModal.tsx:106 | the free-text box takes the text and the draft is untouched |
| EntryModal.EntryForm.HandleAiParse | components/EntryModal.tsx:61-69 | an empty free-text box changes nothing; otherwise the draft is merged with the parser's result |
| EntryModal.EntryForm.HandleSubmit | components/EntryModal.tsx:71-78 | the entry handed to `onSave` is the `Submitted` entry of the draft |
| MonthView.ParseIsoDate | index.tsx:251 | `new Date` on `YYYY-MM-DD` gives a day of the calendar, or an Invalid Date |
| MonthView.ParseFormatIsoDate | index.tsx:251 | every day as the date input writes it reads back as that day |
| MonthView.IsoDateIsCanonical | index.tsx:251 | text that reads as a day is exactly that day's `YYYY-MM-DD` text, so no other text names a day |
| MonthView.DateOf | index.tsx:251 | `new Date(e.date)`, an Invalid Date for an entry without a date; `MonthEntriesDated` shows every entry in the view has a readable one |
| MonthView.MonthLabel | index.tsx:252 | the upper-cased month name is one of the twelve names exactly when the date is readable |
| MonthView.YearLabel | index.tsx:252 | `getFullYear().toString()` is "NaN" for an Invalid Date and otherwise a numeral that reads back as the year |
| MonthView.InMonth | index.tsx:250-252 | the filter's test; `InMonthExactly` characterises it for every month the selector offers |
| MonthView.InMonthExactly | index.tsx:250-252 | for a month the selector offers, an entry passes the filter exactly when it has a readable date of that month name and year |
| MonthView.DateKeyOrder | index.tsx:253 | the sort key orders days as the calendar does, and equal keys are the same day |
| MonthView.SortKey | index.tsx:253 | the comparator's key; `DateKeyOrder` shows it orders days as the calendar does |
| MonthView.MonthEntries | index.tsx:250-253 | `filteredEntries`; `MonthViewSpec` states it is the month's entries, sorted stably by date |
| MonthView.MonthViewSpec | index.tsx:250-253 | the view holds exactly the entries of the month; it is a reordering of the filtered entries, which are a subsequence of the journal; it is sorted by date; entries of the same day keep their journal order |
| MonthView.MonthEntriesDated | index.tsx:250-252 | every entry in the view has a readable date |
| Sequences.Filter | index.tsx:250 | `filter` keeps no more than its input, and only elements that pass |
| Sequences.FilterMembers | index.tsx:250 | `filter` keeps every element that passes and nothing else |
| Sequences.FilterCounts | index.tsx:286 | `filter` keeps every copy of an element that passes, so no duplicate is dropped, and no copy of one that fails |
| Sequences.FilterIsSubseq | index.tsx:250 | what `filter` keeps is in the input's order |
| Sequences.FilterAppend | index.tsx:286 | filtering distributes over concatenation |
| Sequences.FilterAll | index.tsx:286 | a filter every element passes changes nothing |
| Sequences.Insert | index.tsx:253 | inserting adds one element |
| Sequences.InsertPermutes | index.tsx:253 | inserting adds the element and loses nothing |
| Sequences.InsertSorted | index.tsx:253 | inserting into a sorted sequence keeps it sorted |
| Sequences.InsertStable | index.tsx:253 | inserting keeps elements with equal keys in their order |
| Sequences.StableSortBy | index.tsx:253 | `sort` gives a permutation, sorted by key, in which elements with equal keys keep their order |
| App.InlineAmount | index.tsx:98 | an absent or empty rate saves "0"; a numeric rate saves the claim for the tier; any other rate saves "NaN" |
| App.InlineAmountValue | index.tsx:98 | what the saved amount adds to a total: the claim for a numeric rate, else 0 |
| App.InlineSaved | index.tsx:97-101 | the saved entry has the form's fields, the computed amount, and the edited entry's id when it has a non-empty one; in every other case the fresh id |
| App.InlineOpened | index.tsx:73-76 | an edited entry is loaded as it is; otherwise the form keeps its fields, with today's date and the profile's rate, or "500" when that is empty |
| App.NewEntryRateIsSet | index.tsx:75 | a new entry always has a rate, and one opened without a profile rate is priced at 500 |
| App.ReplaceById | index.tsx:317 | `map(x => x.id === e.id ? e : x)` keeps the length and replaces exactly the entries with `e`'s id |
| App.ReplaceByIdUnique | index.tsx:317 | with unique ids, saving an edit replaces the one entry with its id, in place |
| App.ReplaceByIdAbsent | index.tsx:317 | an edit whose id no entry has changes nothing |
| App.EntriesAfterSave | index.tsx:317 | a new entry is appended at the end; an edit replaces by id |
| App.RemoveById | index.tsx:286 | `entries.filter(x => x.id !== id)`; `RemoveByIdSpec` and `RemoveAfterAppend` characterise it |
| App.RemoveByIdSpec | index.tsx:286 | deleting removes every entry with the id and keeps the others, in order and each as many times as it occurred |
| App.RemoveAfterAppend | index.tsx:286 | deleting a just-added entry with a fresh id gives back the journal as it was |
| App.SavedProfileId | index.tsx:241 | `p.id \|\| Date.now().toString()`: the profile's own id when it has one, the fresh id when it has none, and so never empty when the fresh id is not |
| App.ReplaceProfile | index.tsx:242 | the profiles with the saved id are replaced in place and nothing else changes |
| App.ProfilesAfterSave | index.tsx:240-242 | a profile with an id replaces by id; one without is appended under the fresh id |
| App.FindProfile | index.tsx:249 | `find` gives the first profile whose id is the active id, or none when no profile has it |
| App.CurrentProfile | index.tsx:249 | the profile found, else the first profile, else the empty profile |
| App.SaveProfileThenCurrent | index.tsx:240-249 | after `saveProfile` the current profile is the one just saved |
| App.JournalApp.constructor | index.tsx:223-236 | the app starts with the loaded profiles, active id and entries, and December 2025 selected |
| App.JournalApp.SaveProfile | index.tsx:240-249 | the list becomes `ProfilesAfterSave`, the saved profile's non-empty id becomes the active id, and the current profile is the one just saved (an edit of a listed profile, or a new one under a fresh id); entries and month are untouched |
| App.JournalApp.SaveEntry | index.tsx:317 | the entries become `EntriesAfterSave`: one more entry for a new one, the same count for an edit; a new entry is in the month view exactly when its date is in the selected month; nothing else changes |
| App.JournalApp.DeleteEntry | index.tsx:286 | on confirmation the entries with the id are removed and none of them is left in the month view; otherwise nothing changes |
| App.JournalApp.SelectMonth | index.tsx:306 | only the selected month changes, and the month view then holds exactly the journal's entries of the new selection |
| App.JournalApp.SelectYear | index.tsx:307 | only the selected year changes, and the month view then holds exactly the journal's entries of the new selection |
| App.NewEntryInMonthView | index.tsx:250-253 | a newly saved entry is in the month view exactly when its date is in that month |
| App.RemovedIdLeavesMonthView | index.tsx:286 | after deleting by an id, no entry with that id is in any month view |
| PrintView.EntryCells | index.tsx:158-171 | a row has twelve cells: the `DD-MM` date, the amount as stored, and columns 11 and 12 empty when absent |
| PrintView.TableRows | index.tsx:155-177 | a row per entry, in order, then blank rows: at least 15 rows, exactly 15 when the entries fit, no blank row when they do not |
| PrintView.AmountValue | index.tsx:152 | `parseFloat(e.amount) \|\| 0` on an untyped entry; `MissingAmountCountsZero` shows an absent amount counts 0 |
| PrintView.FirstTable | index.tsx:150 | page 1's table; `FirstTableSpec` states its rows |
| PrintView.SecondTable | index.tsx:204-206 | page 2's table, drawn only when page 2 has entries; `SecondTableSpec` states when and what |
| PrintView.Print | index.tsx:148-153 | the printout's tables are page 1's and page 2's, and its words follow the "ZERO ONLY" rule |
| PrintView.FirstTableSpec | index.tsx:150 | page 1 prints the first `min(n, 15)` entries in order, in exactly 15 rows |
| PrintView.SecondTableSpec | index.tsx:204-206 | page 2's table is drawn exactly when there are more than 15 entries, and it prints every later entry, in order, in at least 15 rows |
| PrintView.EmptyMonth | index.tsx:148-207 | no entries: 15 blank rows, no page 2 table, total 0, "ZERO ONLY" |
| PrintView.SixteenEntries | index.tsx:149-151 | sixteen entries fill page 1 with 15 entry rows; page 2 shows the 16th entry and 14 blank rows |
| PrintView.TotalOfBothPages | index.tsx:152 | the total is page 1's total plus page 2's |
| PrintView.UnreadableAmountsInWords | index.tsx:152-153 | a month of unreadable or missing amounts totals 0 and prints "ZERO ONLY" |
| PrintView.MissingAmountCountsZero | index.tsx:152 | an entry with no amount key counts 0 |

## Left out

- Persistence is not modelled. This covers the `localStorage` reads and writes and their JSON
  encoding (index.tsx:233-245, 286, 317). The `JournalApp` constructor takes the loaded values
  as arguments.
- The view switching is left out, because it is screen navigation. This covers:
  - the splash timer (`setTimeout`);
  - the `view`, `modal` and `monthModal` state;
  - `window.print()`.
- services/geminiService.ts is not part of this model, because it is a network call. The
  parser's result is the `parsed` argument of `HandleAiParse`, and `ParserFields` records its
  schema.
- The single-file form's own free-text parse (index.tsx:78-93) is left out for the same reason.
- The single-file form's field setters (index.tsx:123-139) and its `aiInput` and `loading`
  state are not modelled as separate operations. Each setter replaces one key of the form's
  entry. Only the form's opening effect and its save are modelled.
- The entry form's `isAiLoading` flag is left out; it only disables a button.
- The amount-to-words converter is a foreign library. It is the parameter `toWords`, so only
  the zero fallback and the pass-through are stated.
- Floating point is not modelled. Rates, factors and totals are exact rationals, and IEEE
  products that land near a `.5` boundary may round differently in the app.
- Numbers.ParseFloat: `Infinity` and overflow to infinity are not read. An exponent is read
  in full, however large.
- Numbers.IntToString: gives the plain numeral for every integer. JavaScript switches to
  exponent form from 10^21 on, so larger amounts are not modelled.
- MonthView.ParseIsoDate: reads only the `YYYY-MM-DD` form the date input writes, as midnight
  UTC. The following are left out, because they depend on the host:
  - other text `new Date` accepts, such as date-times and legacy formats, which the model
    reads as an Invalid Date;
  - the clock's time zone, since a zone west of UTC shows the previous day;
  - the locale's month names, which the model takes to be English;
  - the rolling over of a day past the month's end, such as `2025-02-30`, into the next
    month, which some hosts do and the model reads as an Invalid Date. The date input never
    writes such text; only the free-text parser could supply it.
- MonthView.SortKey: the comparator is modelled by the sign of the difference of two days.
  The NaN the comparator gives for an Invalid Date is not modelled. Entries in a month the
  selector offers always have a readable date.
- PrintView.EntryCells: requires the entry to have a date. On an entry without one the
  app's `e.date.split` throws, and the model has no exceptions.
- React's scheduling is not modelled; each handler is one atomic state change. The opening
  effect's `setFormData`, followed by `calculateAmount`'s functional update, is modelled as
  those two updates applied in order.
- JSX markup and CSS are left out, including the upper-casing of cells, as presentation.
  `SplashScreen` and the `ProfileSetup` form (index.tsx:40-66) are left out too, apart from
  the profile they hand to `saveProfile`.
- The profile header fields and the static text of both printouts are left out, because they
  are display only.
