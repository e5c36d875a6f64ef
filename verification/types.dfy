/**
 * The journal's records (types.ts): the claimant's profile, a typed journal entry, and the
 * untyped JavaScript object view of an entry that forms, drafts and the single-file app
 * work on.
 */
module Types {
  import opened Wrappers

  /** The day/night claim tier of column 8. */
  datatype Tier = Full | Seventy | Thirty | Nil

  /** How a tier is written in an entry: `'100' | '70' | '30' | 'Nil'`. */
  function TierText(t: Tier): string
  {
    match t
    case Full => "100"
    case Seventy => "70"
    case Thirty => "30"
    case Nil => "Nil"
  }

  /** The tier a `percentClaimed` text names, if it names one. */
  function ParseTier(s: string): (t: Option<Tier>)
    ensures t.Some? ==> TierText(t.value) == s
  {
    if s == "100" then Some(Full)
    else if s == "70" then Some(Seventy)
    else if s == "30" then Some(Thirty)
    else if s == "Nil" then Some(Nil)
    else None
  }

  /** Every tier's text reads back as that tier. */
  lemma ParseTierText(t: Tier)
    ensures ParseTier(TierText(t)) == Some(t)
  {
  }

  /**
   * A claimant's profile. Every field is text, `dailyRate` included; an absent `id`
   * (a profile not yet saved) is the empty text, which like `undefined` is falsy and
   * equals no saved id.
   */
  datatype UserProfile = UserProfile(
    id: string,
    name: string,
    designation: string,
    headquarters: string,
    payLevel: string,
    basicPay: string,
    pfNumber: string,
    department: string,
    branch: string,
    division: string,
    dailyRate: string)

  /** The `{}` profile shown when there is none: every field absent. */
  const EmptyProfile := UserProfile("", "", "", "", "", "", "", "", "", "", "")

  /** One day's journey, a row of the TA journal (columns 1 to 12). */
  datatype JournalEntry = JournalEntry(
    id: string,
    date: string,
    trainNo: string,
    depStation: string,
    depTime: string,
    arrStation: string,
    arrTime: string,
    distance: string,
    purpose: string,
    percentClaimed: Tier,
    amount: string,
    otherDistance: Option<string>,
    remarks: Option<string>)

  /**
   * The keys an entry object can carry: those of `JournalEntry`, and the `rate`, `pvtDist`
   * and `refItem` keys of the entries the single-file app keeps.
   */
  datatype Field =
    | Id | Date | TrainNo | DepStation | DepTime | ArrStation | ArrTime | Distance
    | Purpose | PercentClaimed | Amount | OtherDistance | Remarks
    | Rate | PvtDist | RefItem

  /** A JavaScript object with text values; a key it lacks reads as `undefined`. */
  type Record = map<Field, string>

  /** The object has every key a `JournalEntry` always has. */
  predicate HasRequiredFields(r: Record)
  {
    Id in r && Date in r && TrainNo in r && DepStation in r && DepTime in r && ArrStation in r &&
    ArrTime in r && Distance in r && Purpose in r && PercentClaimed in r && Amount in r
  }

  /** `r[f]`: the value, or `None` for `undefined`. */
  function Get(r: Record, f: Field): Option<string>
  {
    if f in r then Some(r[f]) else None
  }

  /** `String(v)`: what JavaScript makes of a possibly undefined value used as text. */
  function Text(v: Option<string>): string
  {
    match v
    case Some(s) => s
    case None => "undefined"
  }

  /** Every key an entry object can carry. */
  const AllFields: set<Field> :=
    {Id, Date, TrainNo, DepStation, DepTime, ArrStation, ArrTime, Distance, Purpose, PercentClaimed,
     Amount, OtherDistance, Remarks, Rate, PvtDist, RefItem}

  /** The value a typed entry gives key `f`, `None` where it has none. */
  function EntryField(e: JournalEntry, f: Field): Option<string>
  {
    match f
    case Id => Some(e.id)
    case Date => Some(e.date)
    case TrainNo => Some(e.trainNo)
    case DepStation => Some(e.depStation)
    case DepTime => Some(e.depTime)
    case ArrStation => Some(e.arrStation)
    case ArrTime => Some(e.arrTime)
    case Distance => Some(e.distance)
    case Purpose => Some(e.purpose)
    case PercentClaimed => Some(TierText(e.percentClaimed))
    case Amount => Some(e.amount)
    case OtherDistance => e.otherDistance
    case Remarks => e.remarks
    case Rate => None
    case PvtDist => None
    case RefItem => None
  }

  /** A typed entry seen as an object, as when the edit form is loaded with it. */
  function EntryToRecord(e: JournalEntry): (r: Record)
    ensures forall f :: Get(r, f) == EntryField(e, f)
  {
    map f | f in AllFields && EntryField(e, f).Some? :: EntryField(e, f).value
  }

  /**
   * An object read as a typed entry, when it is one: every required key present and
   * `percentClaimed` one of the four tiers. Other keys are ignored.
   */
  function RecordToEntry(r: Record): (e: Option<JournalEntry>)
    ensures e.Some? <==> HasRequiredFields(r) && ParseTier(r[PercentClaimed]).Some?
  {
    if HasRequiredFields(r) && ParseTier(r[PercentClaimed]).Some? then
      Some(JournalEntry(r[Id], r[Date], r[TrainNo], r[DepStation], r[DepTime], r[ArrStation],
                        r[ArrTime], r[Distance], r[Purpose], ParseTier(r[PercentClaimed]).value,
                        r[Amount], Get(r, OtherDistance), Get(r, Remarks)))
    else None
  }

  /** An entry survives being viewed as an object and read back. */
  lemma EntryRecordRoundTrip(e: JournalEntry)
    ensures RecordToEntry(EntryToRecord(e)) == Some(e)
  {
    var r := EntryToRecord(e);
    assert HasRequiredFields(r) by {
      assert Get(r, Id).Some? && Get(r, Date).Some? && Get(r, TrainNo).Some?;
      assert Get(r, DepStation).Some? && Get(r, DepTime).Some? && Get(r, ArrStation).Some?;
      assert Get(r, ArrTime).Some? && Get(r, Distance).Some? && Get(r, Purpose).Some?;
      assert Get(r, PercentClaimed).Some? && Get(r, Amount).Some?;
    }
    ParseTierText(e.percentClaimed);
    assert Get(r, PercentClaimed) == Some(TierText(e.percentClaimed));
    assert Get(r, OtherDistance) == e.otherDistance && Get(r, Remarks) == e.remarks;
  }

  /** An object read as an entry gives back every one of the entry's keys unchanged. */
  lemma RecordEntryRoundTrip(r: Record)
    requires RecordToEntry(r).Some?
    ensures forall f :: f != Rate && f != PvtDist && f != RefItem ==>
                          Get(EntryToRecord(RecordToEntry(r).value), f) == Get(r, f)
  {
    var e := RecordToEntry(r).value;
    forall f | f != Rate && f != PvtDist && f != RefItem
      ensures EntryField(e, f) == Get(r, f)
    {
    }
  }
}
