/**
 * The single-file app (index.tsx): its own entry form's save, which prices the entry from
 * the form's rate, and the app state that holds the profiles, the active profile, the
 * journal entries and the selected month, with the handlers that replace them.
 */
module App {
  import opened Wrappers
  import opened Numbers
  import opened Types
  import opened Calculator
  import opened Sequences
  import opened MonthView

  /**
   * `Math.round(parseFloat(entry.rate || 0) * factor).toString()` at save time: an absent
   * or empty rate prices the entry at 0; a rate that is not a number gives `NaN`.
   */
  function InlineAmount(entry: Record): (amount: string)
    ensures Rate !in entry || entry[Rate] == "" ==> amount == "0"
    ensures Rate in entry && entry[Rate] != "" && ParseFloat(entry[Rate]).Some? ==>
              amount == IntToString(ClaimAmount(ParseFloat(entry[Rate]).value, Text(Get(entry, PercentClaimed))))
    ensures Rate in entry && entry[Rate] != "" && ParseFloat(entry[Rate]).None? ==> amount == "NaN"
  {
    var tier := Text(Get(entry, PercentClaimed));
    if Rate !in entry || entry[Rate] == "" then
      assert ClaimAmount(0.0, tier) == 0;
      IntToString(ClaimAmount(0.0, tier))
    else
      match ParseFloat(entry[Rate])
      case Some(rate) => IntToString(ClaimAmount(rate, tier))
      case None => "NaN"
  }

  /**
   * What the saved amount adds to the month's total: the claim on the rate, 0 for an empty
   * rate, and 0 too for a rate that is not a number, whose `NaN` amount counts as 0.
   */
  lemma InlineAmountValue(entry: Record)
    ensures NumberOrZero(InlineAmount(entry)) ==
              if Rate in entry && ParseFloat(entry[Rate]).Some?
              then ClaimAmount(ParseFloat(entry[Rate]).value, Text(Get(entry, PercentClaimed))) as real
              else 0.0
  {
    var tier := Text(Get(entry, PercentClaimed));
    if Rate !in entry || entry[Rate] == "" {
      NumberOrZeroOfInt(0);
      assert ParseFloat("") == None;
    } else if ParseFloat(entry[Rate]).Some? {
      NumberOrZeroOfInt(ClaimAmount(ParseFloat(entry[Rate]).value, tier));
    } else {
      NumberOrZeroOfWord("NaN");
    }
  }

  /**
   * `handleSave`'s entry: the form's fields, the computed amount in place of any amount the
   * form held, and the edited entry's id when it has one, else the fresh id.
   */
  function InlineSaved(entry: Record, editEntry: Option<Record>, freshId: string): (saved: Record)
    ensures saved.Keys == entry.Keys + {Amount, Id}
    ensures forall f :: f in entry && f != Amount && f != Id ==> saved[f] == entry[f]
    ensures saved[Amount] == InlineAmount(entry)
    ensures editEntry.Some? && Id in editEntry.value && editEntry.value[Id] != "" ==>
              saved[Id] == editEntry.value[Id]
    ensures !(editEntry.Some? && Id in editEntry.value && editEntry.value[Id] != "") ==> saved[Id] == freshId
  {
    var id := if editEntry.Some? && Id in editEntry.value && editEntry.value[Id] != ""
              then editEntry.value[Id] else freshId;
    entry[Amount := InlineAmount(entry)][Id := id]
  }

  /** The form's opening effect: an edited entry as it is, else today and the profile's rate or "500". */
  function InlineOpened(prev: Record, editEntry: Option<Record>, today: string, dailyRate: string): (entry: Record)
    ensures editEntry.Some? ==> entry == editEntry.value
    ensures editEntry.None? ==>
              entry.Keys == prev.Keys + {Date, Rate} && entry[Date] == today &&
              entry[Rate] == (if dailyRate != "" then dailyRate else "500") &&
              forall f :: f in prev && f != Date && f != Rate ==> entry[f] == prev[f]
  {
    match editEntry
    case Some(e) => e
    case None => prev[Date := today][Rate := if dailyRate != "" then dailyRate else "500"]
  }

  /** A new entry is never priced at `NaN`: the form opens with a rate that is not empty. */
  lemma NewEntryRateIsSet(prev: Record, today: string, dailyRate: string)
    ensures var entry := InlineOpened(prev, None, today, dailyRate);
            Rate in entry && entry[Rate] != ""
    ensures dailyRate == "" ==>
              InlineAmount(InlineOpened(prev, None, today, dailyRate)) ==
              IntToString(ClaimAmount(500.0, Text(Get(prev, PercentClaimed))))
  {
    var entry := InlineOpened(prev, None, today, dailyRate);
    if dailyRate == "" {
      ClaimsOn500();
      assert entry[Rate] == "500" && ParseFloat(entry[Rate]) == Some(500.0);
      assert Get(entry, PercentClaimed) == Get(prev, PercentClaimed);
    }
  }

  /** `entries.map(x => x.id === e.id ? e : x)`: every entry with `e`'s id becomes `e`. */
  function ReplaceById(entries: seq<Record>, e: Record): (r: seq<Record>)
    ensures |r| == |entries|
    ensures forall i :: 0 <= i < |entries| ==>
              r[i] == if Get(entries[i], Id) == Get(e, Id) then e else entries[i]
  {
    seq(|entries|, i requires 0 <= i < |entries| =>
      if Get(entries[i], Id) == Get(e, Id) then e else entries[i])
  }

  /** No two entries share an id. */
  predicate UniqueIds(entries: seq<Record>)
  {
    forall i, j :: 0 <= i < j < |entries| ==> Get(entries[i], Id) != Get(entries[j], Id)
  }

  /**
   * Saving an edit when ids are unique replaces exactly the entry with the edited id, in
   * place: the length, the order and every other entry are unchanged.
   */
  lemma ReplaceByIdUnique(entries: seq<Record>, e: Record, k: int)
    requires UniqueIds(entries)
    requires 0 <= k < |entries| && Get(entries[k], Id) == Get(e, Id)
    ensures ReplaceById(entries, e) == entries[k := e]
  {
    var r := ReplaceById(entries, e);
    forall i | 0 <= i < |entries|
      ensures r[i] == entries[k := e][i]
    {
      if i < k {
        assert Get(entries[i], Id) != Get(entries[k], Id);
      } else if i > k {
        assert Get(entries[k], Id) != Get(entries[i], Id);
      }
    }
  }

  /** An edit whose id no entry has changes nothing. */
  lemma ReplaceByIdAbsent(entries: seq<Record>, e: Record)
    requires forall i :: 0 <= i < |entries| ==> Get(entries[i], Id) != Get(e, Id)
    ensures ReplaceById(entries, e) == entries
  {
  }

  /**
   * The entry form's `onSave`: replace by id when editing, else append. What the two
   * branches keep is stated by `ReplaceByIdUnique`, `ReplaceByIdAbsent` and
   * `RemoveAfterAppend`.
   */
  function EntriesAfterSave(entries: seq<Record>, e: Record, editing: bool): (r: seq<Record>)
    ensures !editing ==> r == entries + [e]
    ensures editing ==> r == ReplaceById(entries, e)
  {
    if editing then ReplaceById(entries, e) else entries + [e]
  }

  /** The test of the delete filter: the entry's id is not the deleted one. */
  function KeepsOtherIds(id: Option<string>): Record -> bool
  {
    x => Get(x, Id) != id
  }

  /** `entries.filter(x => x.id !== e.id)`. */
  function RemoveById(entries: seq<Record>, id: Option<string>): seq<Record>
  {
    Filter(entries, KeepsOtherIds(id))
  }

  /**
   * Deleting removes every entry with the id and only those: the others remain, in their
   * order.
   */
  lemma RemoveByIdSpec(entries: seq<Record>, id: Option<string>)
    ensures forall x :: x in RemoveById(entries, id) ==> Get(x, Id) != id
    ensures forall i :: 0 <= i < |entries| && Get(entries[i], Id) != id ==> entries[i] in RemoveById(entries, id)
    ensures SubseqOf(RemoveById(entries, id), entries)
    ensures forall x :: multiset(RemoveById(entries, id))[x] ==
                        if Get(x, Id) != id then multiset(entries)[x] else 0
  {
    FilterCounts(entries, KeepsOtherIds(id));
    FilterMembers(entries, KeepsOtherIds(id));
    FilterIsSubseq(entries, KeepsOtherIds(id));
  }

  /** Deleting a just-added entry whose id was fresh gives back the journal as it was. */
  lemma RemoveAfterAppend(entries: seq<Record>, e: Record)
    requires forall i :: 0 <= i < |entries| ==> Get(entries[i], Id) != Get(e, Id)
    ensures RemoveById(EntriesAfterSave(entries, e, false), Get(e, Id)) == entries
  {
    var p := KeepsOtherIds(Get(e, Id));
    FilterAppend(entries, [e], p);
    FilterAll(entries, p);
    assert Filter([e], p) == [];
  }

  /** `p.id || Date.now().toString()`. */
  function SavedProfileId(p: UserProfile, freshId: string): (id: string)
    ensures p.id != "" ==> id == p.id
    ensures p.id == "" ==> id == freshId
    ensures freshId != "" ==> id != ""
  {
    if p.id != "" then p.id else freshId
  }

  /** `profiles.map(x => x.id === id ? p : x)`; `SaveProfileThenCurrent` shows its effect. */
  function ReplaceProfile(profiles: seq<UserProfile>, p: UserProfile): (r: seq<UserProfile>)
    ensures |r| == |profiles|
    ensures forall i :: 0 <= i < |profiles| ==> r[i] == if profiles[i].id == p.id then p else profiles[i]
  {
    seq(|profiles|, i requires 0 <= i < |profiles| => if profiles[i].id == p.id then p else profiles[i])
  }

  /**
   * `saveProfile`'s new list: a profile with an id replaces the profiles with that id in
   * place; one without is appended under the fresh id. `SaveProfileThenCurrent` shows the
   * saved profile becomes the current one.
   */
  function ProfilesAfterSave(profiles: seq<UserProfile>, p: UserProfile, freshId: string): (r: seq<UserProfile>)
    ensures p.id != "" ==> r == ReplaceProfile(profiles, p)
    ensures p.id == "" ==> r == profiles + [p.(id := freshId)]
  {
    if p.id != "" then ReplaceProfile(profiles, p) else profiles + [p.(id := freshId)]
  }

  /** The first profile whose id is `activeId`; a `null` active id matches none. */
  function FindProfile(profiles: seq<UserProfile>, activeId: Option<string>): (found: Option<int>)
    ensures found.Some? ==> 0 <= found.value < |profiles| && Some(profiles[found.value].id) == activeId &&
                            forall j :: 0 <= j < found.value ==> Some(profiles[j].id) != activeId
    ensures found.None? ==> forall j :: 0 <= j < |profiles| ==> Some(profiles[j].id) != activeId
  {
    if profiles == [] then None
    else if Some(profiles[0].id) == activeId then Some(0)
    else match FindProfile(profiles[1..], activeId)
      case Some(k) => Some(k + 1)
      case None => None
  }

  /** `profiles.find(p => p.id === activeId) || profiles[0] || {}`. */
  function CurrentProfile(profiles: seq<UserProfile>, activeId: Option<string>): (cur: UserProfile)
    ensures FindProfile(profiles, activeId).Some? ==> cur == profiles[FindProfile(profiles, activeId).value]
    ensures FindProfile(profiles, activeId).None? && |profiles| > 0 ==> cur == profiles[0]
    ensures profiles == [] ==> cur == EmptyProfile
  {
    match FindProfile(profiles, activeId)
    case Some(k) => profiles[k]
    case None => if |profiles| > 0 then profiles[0] else EmptyProfile
  }

  /**
   * After `saveProfile`, the current profile is the one just saved: an edited profile
   * whose id is on the list, or a new one under a fresh id.
   */
  lemma SaveProfileThenCurrent(profiles: seq<UserProfile>, p: UserProfile, freshId: string)
    requires freshId != ""
    requires p.id != "" ==> exists i :: 0 <= i < |profiles| && profiles[i].id == p.id
    requires p.id == "" ==> forall i :: 0 <= i < |profiles| ==> profiles[i].id != freshId
    ensures CurrentProfile(ProfilesAfterSave(profiles, p, freshId), Some(SavedProfileId(p, freshId))) ==
              if p.id != "" then p else p.(id := freshId)
  {
    var after := ProfilesAfterSave(profiles, p, freshId);
    var id := Some(SavedProfileId(p, freshId));
    if p.id != "" {
      var i :| 0 <= i < |profiles| && profiles[i].id == p.id;
      assert after[i] == p;
      var k := FindProfile(after, id).value;
      assert after[k] == p;
    } else {
      assert after[|profiles|].id == freshId;
      var k := FindProfile(after, id).value;
      assert k == |profiles|;
    }
  }

  /** The app's state: what `App` keeps with `useState` and replaces in its handlers. */
  class JournalApp {
    var profiles: seq<UserProfile>
    var activeId: Option<string>
    var entries: seq<Record>
    var monthYear: MonthYear

    /** The state once the stored profiles, active id and entries are loaded. */
    constructor (storedProfiles: seq<UserProfile>, storedActiveId: Option<string>, storedEntries: seq<Record>)
      ensures profiles == storedProfiles && activeId == storedActiveId && entries == storedEntries
      ensures monthYear == InitialSelection
    {
      profiles := storedProfiles;
      activeId := storedActiveId;
      entries := storedEntries;
      monthYear := InitialSelection;
    }

    /** `currentProfile`. */
    function Current(): UserProfile
      reads this
    {
      CurrentProfile(profiles, activeId)
    }

    /** `filteredEntries`: the selected month's entries by date. */
    function Filtered(): seq<Record>
      reads this
    {
      MonthEntries(entries, monthYear)
    }

    /**
     * `saveProfile(p)`, with the fresh id `Date.now()` would give: the list is updated
     * and the saved profile becomes the active one.
     */
    method SaveProfile(p: UserProfile, freshId: string)
      requires freshId != ""
      modifies this
      ensures profiles == ProfilesAfterSave(old(profiles), p, freshId)
      ensures activeId == Some(SavedProfileId(p, freshId)) && activeId.value != ""
      ensures entries == old(entries) && monthYear == old(monthYear)
      ensures p.id != "" && (exists i :: 0 <= i < |old(profiles)| && old(profiles)[i].id == p.id) ==>
                Current() == p
      ensures p.id == "" && (forall i :: 0 <= i < |old(profiles)| ==> old(profiles)[i].id != freshId) ==>
                Current() == p.(id := freshId)
    {
      ghost var before := profiles;
      if p.id != "" ==> exists i :: 0 <= i < |before| && before[i].id == p.id {
        if p.id == "" ==> forall i :: 0 <= i < |before| ==> before[i].id != freshId {
          SaveProfileThenCurrent(before, p, freshId);
        }
      }
      var id := if p.id != "" then p.id else freshId;
      if p.id != "" {
        profiles := ReplaceProfile(profiles, p);
      } else {
        profiles := profiles + [p.(id := id)];
      }
      activeId := Some(id);
    }

    /** The entry form's `onSave`. */
    method SaveEntry(e: Record, editing: bool)
      modifies this
      ensures entries == EntriesAfterSave(old(entries), e, editing)
      ensures |entries| == |old(entries)| + (if editing then 0 else 1)
      ensures profiles == old(profiles) && activeId == old(activeId) && monthYear == old(monthYear)
      ensures !editing ==> (e in Filtered() <==> InMonth(e, monthYear))
    {
      if !editing {
        NewEntryInMonthView(entries, e, monthYear);
      }
      if editing {
        entries := ReplaceById(entries, e);
      } else {
        entries := entries + [e];
      }
    }

    /** The delete button: the entry with that id goes only when the user confirms. */
    method DeleteEntry(id: Option<string>, confirmed: bool)
      modifies this
      ensures entries == if confirmed then RemoveById(old(entries), id) else old(entries)
      ensures profiles == old(profiles) && activeId == old(activeId) && monthYear == old(monthYear)
      ensures confirmed ==> forall x :: x in Filtered() ==> Get(x, Id) != id
    {
      if confirmed {
        entries := Filter(entries, KeepsOtherIds(id));
        RemovedIdLeavesMonthView(old(entries), id, monthYear);
      }
    }

    /** The month selector. */
    method SelectMonth(month: string)
      modifies this
      ensures monthYear == old(monthYear).(month := month)
      ensures profiles == old(profiles) && activeId == old(activeId) && entries == old(entries)
      ensures forall e :: e in Filtered() <==> e in entries && InMonth(e, monthYear)
    {
      monthYear := monthYear.(month := month);
      MonthViewSpec(entries, monthYear);
    }

    /** The year selector. */
    method SelectYear(year: string)
      modifies this
      ensures monthYear == old(monthYear).(year := year)
      ensures profiles == old(profiles) && activeId == old(activeId) && entries == old(entries)
      ensures forall e :: e in Filtered() <==> e in entries && InMonth(e, monthYear)
    {
      monthYear := monthYear.(year := year);
      MonthViewSpec(entries, monthYear);
    }
  }

  /** A newly saved entry is listed in the month view exactly when its date is in that month. */
  lemma NewEntryInMonthView(entries: seq<Record>, e: Record, sel: MonthYear)
    ensures e in MonthEntries(EntriesAfterSave(entries, e, false), sel) <==> InMonth(e, sel)
  {
    MonthViewSpec(EntriesAfterSave(entries, e, false), sel);
  }

  /** Deleting by an id leaves no entry with that id in any month view. */
  lemma RemovedIdLeavesMonthView(entries: seq<Record>, id: Option<string>, sel: MonthYear)
    ensures forall x :: x in MonthEntries(RemoveById(entries, id), sel) ==> Get(x, Id) != id
  {
    MonthViewSpec(RemoveById(entries, id), sel);
    RemoveByIdSpec(entries, id);
  }
}
