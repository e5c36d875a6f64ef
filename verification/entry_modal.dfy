/**
 * The entry form (components/EntryModal.tsx): a draft entry that is reset or loaded when the
 * form opens, edited one field at a time, priced from the profile's daily rate when the
 * tier changes, merged with what the free-text parser recognised, and submitted as an entry.
 *
 * Each transition of the draft is a function here; the `EntryForm` class holds the draft and
 * applies them the way the component's handlers do, one handler call at a time.
 */
module EntryModal {
  import opened Wrappers
  import opened Numbers
  import opened Types
  import opened Calculator

  /** The draft a new entry starts from: today's date, full tier, official duty, no amount. */
  function DefaultDraft(today: string): Record
  {
    map[Date := today, PercentClaimed := "100", Purpose := "Official Duty", Amount := ""]
  }

  /**
   * `calculateAmount(percent, rateStr)`, given `rate`, what `parseFloat(rateStr)` reads:
   * when the rate is a number, the draft's tier becomes `percent` and its amount the rounded
   * claim, and nothing else changes; when it is not, the draft is left as it is.
   */
  function Priced(draft: Record, percent: string, rate: Option<real>): (d: Record)
    ensures rate.None? ==> d == draft
    ensures rate.Some? ==>
              PercentClaimed in d && Amount in d && d[PercentClaimed] == percent &&
              d[Amount] == IntToString(ClaimAmount(rate.value, percent))
    ensures forall f :: f in draft && f != PercentClaimed && f != Amount ==> f in d && d[f] == draft[f]
    ensures forall f :: f in d ==> f in draft || f == PercentClaimed || f == Amount
  {
    match rate
    case None => draft
    case Some(r) => draft[PercentClaimed := percent][Amount := IntToString(ClaimAmount(r, percent))]
  }

  /** The amount pricing writes reads back, in the totals, as the claim itself. */
  lemma PricedAmountReadsBack(draft: Record, percent: string, rate: real)
    ensures NumberOrZero(Priced(draft, percent, Some(rate))[Amount]) == ClaimAmount(rate, percent) as real
  {
    NumberOrZeroOfInt(ClaimAmount(rate, percent));
  }

  /**
   * `handleChange`, given `rate`, what `parseFloat` reads from the profile's daily rate:
   * the named field takes the typed value; only a change of tier prices the draft again,
   * so an amount typed by hand stays.
   */
  function Changed(draft: Record, name: Field, value: string, rate: Option<real>): (d: Record)
    ensures name in d && d[name] == value
    ensures forall f :: f in draft && f != name && f != Amount ==> f in d && d[f] == draft[f]
    ensures forall f :: f in d ==> f in draft || f == name || f == Amount
    ensures name != PercentClaimed ==> d == draft[name := value]
    ensures name == PercentClaimed && rate.Some? ==>
              Amount in d && d[Amount] == IntToString(ClaimAmount(rate.value, value))
    ensures name == PercentClaimed && rate.None? ==> Get(d, Amount) == Get(draft, Amount)
  {
    var d := draft[name := value];
    if name == PercentClaimed then
      var p := Priced(d, value, rate);
      assert Get(d, Amount) == Get(draft, Amount);
      p
    else d
  }

  /**
   * `handleAiParse`'s merge: a non-empty parser result overwrites the keys it has and leaves
   * every other key of the draft as it was; an empty one changes nothing.
   */
  function Merged(draft: Record, parsed: Record): (d: Record)
    ensures d.Keys == draft.Keys + parsed.Keys
    ensures forall f :: f in parsed ==> d[f] == parsed[f]
    ensures forall f :: f in draft && f !in parsed ==> d[f] == draft[f]
  {
    if |parsed| > 0 then draft + parsed else draft
  }

  /** `entryToEdit?.id || Date.now().toString()`: the edited entry's id unless it is empty. */
  function SubmitId(entryToEdit: Option<JournalEntry>, freshId: string): (id: string)
    ensures entryToEdit.Some? && entryToEdit.value.id != "" ==> id == entryToEdit.value.id
    ensures !(entryToEdit.Some? && entryToEdit.value.id != "") ==> id == freshId
  {
    if entryToEdit.Some? && entryToEdit.value.id != "" then entryToEdit.value.id else freshId
  }

  /**
   * `handleSubmit`: `{ id, ...formData }`. The entry has the draft's keys and values, plus an
   * id; a draft that already holds an id keeps it, since the draft is spread after the id.
   */
  function Submitted(draft: Record, entryToEdit: Option<JournalEntry>, freshId: string): (r: Record)
    ensures r.Keys == draft.Keys + {Id}
    ensures forall f :: f in draft ==> r[f] == draft[f]
    ensures Id !in draft ==> r[Id] == SubmitId(entryToEdit, freshId)
  {
    map[Id := SubmitId(entryToEdit, freshId)] + draft
  }

  /**
   * The effect run when the form opens, given what `parseFloat` reads from the profile's
   * daily rate: an entry to edit is loaded as it is; otherwise the draft is reset to the
   * defaults and priced at the full tier.
   */
  function Opened(entryToEdit: Option<JournalEntry>, today: string, rate: Option<real>): (d: Record)
    ensures entryToEdit.Some? ==> d == EntryToRecord(entryToEdit.value)
    ensures entryToEdit.None? ==>
              d.Keys == {Date, PercentClaimed, Purpose, Amount} &&
              d[Date] == today && d[PercentClaimed] == "100" && d[Purpose] == "Official Duty" &&
              d[Amount] == match rate
                           case Some(r) => IntToString(ClaimAmount(r, "100"))
                           case None => ""
  {
    match entryToEdit
    case Some(e) => EntryToRecord(e)
    case None =>
      var base := DefaultDraft(today);
      var d := Priced(base, "100", rate);
      assert d.Keys == base.Keys;
      d
  }

  /** The keys the free-text parser's response schema allows (services/geminiService.ts). */
  const ParserFields: set<Field> := {Date, TrainNo, DepStation, DepTime, ArrStation, ArrTime, Purpose}

  /**
   * A parser result restricted to its schema never touches the draft's id, tier or amount:
   * the computed (or hand-typed) amount survives the merge.
   */
  lemma MergeKeepsClaim(draft: Record, parsed: Record)
    requires parsed.Keys <= ParserFields
    ensures Get(Merged(draft, parsed), Amount) == Get(draft, Amount)
    ensures Get(Merged(draft, parsed), PercentClaimed) == Get(draft, PercentClaimed)
    ensures Get(Merged(draft, parsed), Id) == Get(draft, Id)
  {
    assert Amount !in parsed && PercentClaimed !in parsed && Id !in parsed;
  }

  /**
   * Opening an entry for edit and submitting it untouched saves that very entry again,
   * with its own id, whatever fresh id is on offer.
   */
  lemma EditRoundTrip(e: JournalEntry, today: string, rate: Option<real>, freshId: string)
    ensures Submitted(Opened(Some(e), today, rate), Some(e), freshId) == EntryToRecord(e)
    ensures RecordToEntry(Submitted(Opened(Some(e), today, rate), Some(e), freshId)) == Some(e)
  {
    var d := Opened(Some(e), today, rate);
    assert Get(d, Id) == Some(e.id);
    assert Submitted(d, Some(e), freshId) == d;
    EntryRecordRoundTrip(e);
  }

  /**
   * A new entry filled in field by field (never through the id) is saved under the fresh
   * id, and its amount is what the last pricing or hand edit left in the draft.
   */
  lemma NewEntryGetsFreshId(draft: Record, freshId: string)
    requires Id !in draft
    ensures Submitted(draft, None, freshId)[Id] == freshId
    ensures Get(Submitted(draft, None, freshId), Amount) == Get(draft, Amount)
  {
  }

  /** Edits of fields other than the tier and the id never bring an id into the draft. */
  lemma ChangeKeepsIdAbsent(draft: Record, name: Field, value: string, rate: Option<real>)
    requires Id !in draft && name != Id
    ensures Id !in Changed(draft, name, value, rate)
  {
  }

  /**
   * A hand-typed amount survives any later edit of a field other than the amount and the
   * tier.
   */
  lemma HandTypedAmountSurvives(draft: Record, typed: string, name: Field, value: string, rate: Option<real>)
    requires name != Amount && name != PercentClaimed
    ensures Changed(Changed(draft, Amount, typed, rate), name, value, rate)[Amount] == typed
  {
  }

  /**
   * With a profile rate of "500", a new entry opens at "500" and changing its tier to 70
   * gives "350".
   */
  lemma NewEntryAtSeventyPercent(today: string)
    ensures Opened(None, today, ParseFloat("500"))[Amount] == "500"
    ensures Changed(Opened(None, today, ParseFloat("500")), PercentClaimed, "70", ParseFloat("500"))[Amount] == "350"
  {
    ClaimsOn500();
  }

  /** The entry form's state: the draft (`formData`) and the free-text box. */
  class EntryForm {
    var formData: Record
    var naturalInput: string

    /** The component's initial state, before its opening effect runs. */
    constructor (today: string)
      ensures formData == DefaultDraft(today) && naturalInput == ""
    {
      formData := DefaultDraft(today);
      naturalInput := "";
    }

    /** The reset/load effect, run with the props the form is opened with. */
    method Open(entryToEdit: Option<JournalEntry>, today: string, dailyRate: string)
      modifies this
      ensures formData == Opened(entryToEdit, today, ParseFloat(dailyRate))
      ensures naturalInput == old(naturalInput)
    {
      if entryToEdit.Some? {
        formData := EntryToRecord(entryToEdit.value);
      } else {
        formData := DefaultDraft(today);
        CalculateAmount("100", dailyRate);
      }
    }

    /** `calculateAmount`: the factor chosen by the tier, then `Math.round(rate * factor)`. */
    method CalculateAmount(percent: string, rateStr: string)
      modifies this
      ensures formData == Priced(old(formData), percent, ParseFloat(rateStr))
      ensures naturalInput == old(naturalInput)
    {
      var rate := ParseFloat(rateStr);
      if rate.None? {
        return;
      }
      var factor := 0.0;
      if percent == "100" { factor := 1.0; }
      if percent == "70" { factor := 0.7; }
      if percent == "30" { factor := 0.3; }
      if percent == "Nil" { factor := 0.0; }
      assert factor == Factor(percent);
      var amt := RoundHalfUp(rate.value * factor);
      assert amt == ClaimAmount(rate.value, percent);
      ghost var priced := Priced(formData, percent, rate);
      assert priced == formData[PercentClaimed := percent][Amount := IntToString(amt)];
      formData := formData[PercentClaimed := percent][Amount := IntToString(amt)];
    }

    /** `handleChange` for the input or select called `name`. */
    method HandleChange(name: Field, value: string, dailyRate: string)
      modifies this
      ensures formData == Changed(old(formData), name, value, ParseFloat(dailyRate))
      ensures naturalInput == old(naturalInput)
    {
      formData := formData[name := value];
      if name == PercentClaimed {
        CalculateAmount(value, dailyRate);
      }
    }

    /** Typing into the free-text box. */
    method SetNaturalInput(text: string)
      modifies this
      ensures naturalInput == text && formData == old(formData)
    {
      naturalInput := text;
    }

    /**
     * `handleAiParse`, given what the parser returns for the free text: nothing happens
     * when the box is empty; otherwise a non-empty result is merged into the draft.
     */
    method HandleAiParse(parsed: Record)
      modifies this
      ensures formData == if old(naturalInput) == "" then old(formData) else Merged(old(formData), parsed)
      ensures naturalInput == old(naturalInput)
    {
      if naturalInput == "" {
        return;
      }
      if |parsed| > 0 {
        formData := formData + parsed;
      }
    }

    /** `handleSubmit`: the entry handed to `onSave`; the draft itself is left as it is. */
    method HandleSubmit(entryToEdit: Option<JournalEntry>, freshId: string) returns (saved: Record)
      ensures saved == Submitted(formData, entryToEdit, freshId)
    {
      var id := if entryToEdit.Some? && entryToEdit.value.id != "" then entryToEdit.value.id else freshId;
      saved := map[Id := id] + formData;
    }
  }
}
