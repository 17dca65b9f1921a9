/**
 * The application state of App.tsx: the case collection and the category
 * lists, the handlers that change them (with optimistic update and rollback
 * when the store call fails), the reload, and the list sync loop.
 *
 * The store (`api.getData`, `api.saveCase`, `api.deleteCase`,
 * `api.updateList`) is not modelled: each call is represented by its outcome,
 * given as a parameter, and a reload a handler asks for is returned rather
 * than performed.
 */
module AppState {
  import opened Options
  import opened Strings
  import opened Seqs
  import opened Cases
  import opened CategoryLists

  // ---------------------------------------------------------------------
  // Pure parts of the handlers
  // ---------------------------------------------------------------------

  /** `cases.map(c => parseInt(c.id, 10)).filter(n => !isNaN(n))`. */
  function NumericIds(cases: seq<PatientCase>): seq<int> {
    if cases == [] then []
    else
      match ParseInt(cases[0].id)
      case Some(n) => [n] + NumericIds(cases[1..])
      case None => NumericIds(cases[1..])
  }

  /** The numeric ids are exactly the values of the ids that parse, and there are none iff no id parses. */
  lemma {:induction false} NumericIdsMembers(cases: seq<PatientCase>)
    ensures forall n :: n in NumericIds(cases) <==> exists c :: c in cases && ParseInt(c.id) == Some(n)
    ensures NumericIds(cases) == [] <==> forall c :: c in cases ==> ParseInt(c.id).None?
  {
    if cases != [] {
      NumericIdsMembers(cases[1..]);
      assert forall c :: c in cases <==> c == cases[0] || c in cases[1..];
    }
  }

  /** `Math.max(...ids)`, or 0 when there are none. */
  function MaxId(ids: seq<int>): (m: int)
    ensures forall n :: n in ids ==> n <= m
    ensures ids == [] ==> m == 0
    ensures ids != [] ==> m in ids
  {
    if ids == [] then 0
    else if |ids| == 1 then ids[0]
    else
      var rest := MaxId(ids[1..]);
      assert forall n :: n in ids ==> n == ids[0] || n in ids[1..];
      if ids[0] > rest then ids[0] else rest
  }

  /** `(maxId + 1).toString()`. */
  function NextId(cases: seq<PatientCase>): string {
    IntToString(MaxId(NumericIds(cases)) + 1)
  }

  /**
   * The new id parses to a number above every id that parses, so it is none
   * of the existing ids.
   */
  lemma NextIdIsFresh(cases: seq<PatientCase>)
    ensures ParseInt(NextId(cases)).Some?
    ensures forall c :: c in cases && ParseInt(c.id).Some? ==> ParseInt(c.id).value < ParseInt(NextId(cases)).value
    ensures forall c :: c in cases ==> c.id != NextId(cases)
  {
    var m := MaxId(NumericIds(cases));
    ParseIntOfIntToString(m + 1);
    NumericIdsAtMostMax(cases);
    FreshAboveParsedIds(cases, NextId(cases), m + 1);
  }

  /** Every id that parses is at most the largest numeric id. */
  lemma NumericIdsAtMostMax(cases: seq<PatientCase>)
    ensures forall c :: c in cases && ParseInt(c.id).Some? ==> ParseInt(c.id).value <= MaxId(NumericIds(cases))
  {
    var ids := NumericIds(cases);
    forall c | c in cases && ParseInt(c.id).Some?
      ensures ParseInt(c.id).value <= MaxId(ids)
    {
      var n := ParseInt(c.id).value;
      assert n in ids by {
        NumericIdsMembers(cases);
        assert c in cases && ParseInt(c.id) == Some(n);
      }
    }
  }

  /** A text that parses above every id that parses is none of the ids. */
  lemma FreshAboveParsedIds(cases: seq<PatientCase>, next: string, k: int)
    requires ParseInt(next) == Some(k)
    requires forall c :: c in cases && ParseInt(c.id).Some? ==> ParseInt(c.id).value < k
    ensures forall c :: c in cases ==> c.id != next
  {
  }

  /** With no id that parses, the first case gets id "1". */
  lemma NextIdWithoutNumericIds(cases: seq<PatientCase>)
    requires forall c :: c in cases ==> ParseInt(c.id).None?
    ensures NextId(cases) == "1"
  {
    NumericIdsMembers(cases);
    assert NumericIds(cases) == [];
    assert NatToString(1) == "1";
  }

  /** `cases.map(c => c.id === id ? updated : c)`. */
  function ReplaceById(cases: seq<PatientCase>, id: string, updated: PatientCase): (r: seq<PatientCase>)
    ensures |r| == |cases|
    ensures forall i :: 0 <= i < |r| ==> r[i] == if cases[i].id == id then updated else cases[i]
  {
    seq(|cases|, i requires 0 <= i < |cases| => if cases[i].id == id then updated else cases[i])
  }

  /** With `updated` carrying the edited id, every position keeps its id, and the cases with other ids are untouched. */
  lemma ReplaceByIdKeepsIds(cases: seq<PatientCase>, id: string, updated: PatientCase)
    requires updated.id == id
    ensures forall i :: 0 <= i < |cases| ==> ReplaceById(cases, id, updated)[i].id == cases[i].id
    ensures forall c :: c in ReplaceById(cases, id, updated) ==> c in cases || c == updated
    ensures forall c :: c in cases && c.id != id ==> c in ReplaceById(cases, id, updated)
  {
    var r := ReplaceById(cases, id, updated);
    forall c | c in cases && c.id != id ensures c in r {
      var i :| 0 <= i < |cases| && cases[i] == c;
      assert r[i] == c;
    }
  }

  function IdIsNot(id: string): PatientCase -> bool {
    (c: PatientCase) => c.id != id
  }

  /** `cases.filter(c => c.id !== id)`. */
  function RemoveById(cases: seq<PatientCase>, id: string): (r: seq<PatientCase>)
    ensures IsSubsequence(r, cases)
    ensures forall c :: c in r <==> c in cases && c.id != id
    ensures forall c :: multiset(r)[c] == if c.id == id then 0 else multiset(cases)[c]
  {
    Filter(IdIsNot(id), cases)
  }

  /** Removing an id that no case has leaves the collection as it was. */
  lemma RemoveAbsentId(cases: seq<PatientCase>, id: string)
    requires forall c :: c in cases ==> c.id != id
    ensures RemoveById(cases, id) == cases
  {
    FilterKeepsAll(IdIsNot(id), cases);
  }

  // ---------------------------------------------------------------------
  // Store outcomes
  // ---------------------------------------------------------------------

  /** The outcome of `api.getData()`; `lists` is `None` when the payload has no lists or an empty lists object. */
  datatype FetchResult = Fetched(cases: seq<PatientCase>, lists: Option<AppLists>) | FetchFailed(message: string)

  /** The reload a handler asks for after its store call. */
  datatype Reload = NoReload | ReloadQuietly | ReloadWithSpinner

  // ---------------------------------------------------------------------
  // The application component
  // ---------------------------------------------------------------------

  /**
   * One iteration of the loop of `syncListsWithData`: a non-blank mapped
   * value absent up to case from its list is inserted and the new list
   * queued for the store.
   */
  method SyncEntry(updatedLists: AppLists, hasChanges: bool, writes: seq<ListWrite>, data: PatientCase,
                   entry: (Field, ListKey))
    returns (updatedLists': AppLists, hasChanges': bool, writes': seq<ListWrite>)
    ensures SyncState(updatedLists', hasChanges', writes') == SyncStep(SyncState(updatedLists, hasChanges, writes), data, entry)
  {
    updatedLists', hasChanges', writes' := updatedLists, hasChanges, writes;
    var (fieldKey, listKey) := entry;
    var value := FieldOf(data, fieldKey);
    if value.Some? && Trim(value.value) != "" {
      var cleanValue := Trim(value.value);
      var targetList := Get(updatedLists, listKey);
      if !HasValueCI(targetList, cleanValue) {
        hasChanges' := true;
        var newList := Inserted(targetList, cleanValue);
        updatedLists' := Set(updatedLists, listKey, newList);
        writes' := writes + [ListWrite(listKey, newList)];
      }
    }
  }

  /** The loop of `syncListsWithData`: visits the mapping in order, one `SyncEntry` per mapped field. */
  method SyncLoop(lists: AppLists, data: PatientCase) returns (updatedLists: AppLists, hasChanges: bool, writes: seq<ListWrite>)
    ensures SyncState(updatedLists, hasChanges, writes) == Sync(lists, data)
    ensures !hasChanges ==> updatedLists == lists
  {
    updatedLists := lists;
    hasChanges := false;
    writes := [];
    var i := 0;
    while i < |SyncMapping|
      invariant 0 <= i <= |SyncMapping|
      invariant SyncState(updatedLists, hasChanges, writes) == SyncUpTo(lists, data, i)
    {
      updatedLists, hasChanges, writes := SyncEntry(updatedLists, hasChanges, writes, data, SyncMapping[i]);
      i := i + 1;
    }
    assert !hasChanges ==> updatedLists == lists by { SyncClosedForm(lists, data); }
  }

  class App {
    var cases: seq<PatientCase>
    var lists: AppLists
    var needsSetup: bool
    var editingCase: Option<PatientCase>
    var modalOpen: bool
    var errorShown: bool
    var configUrlOpen: bool

    /** The state on first render. */
    constructor ()
      ensures cases == [] && lists == EmptyLists && !needsSetup
      ensures editingCase.None? && !modalOpen && !errorShown && !configUrlOpen
    {
      cases := [];
      lists := EmptyLists;
      needsSetup := false;
      editingCase := None;
      modalOpen := false;
      errorShown := false;
      configUrlOpen := false;
    }

    /** `loadData(showLoadingSpinner)` once the fetch has produced `result`. */
    method LoadData(showLoadingSpinner: bool, result: FetchResult)
      modifies this
      ensures result.Fetched? ==> cases == result.cases && !errorShown
      ensures result.Fetched? ==> (needsSetup <==> result.lists.None?)
      ensures result.Fetched? && result.lists.Some? ==> lists == result.lists.value
      ensures result.Fetched? && result.lists.None? ==> lists == old(lists)
      ensures result.Fetched? ==> configUrlOpen == old(configUrlOpen)
      ensures result.FetchFailed? ==> cases == old(cases) && lists == old(lists) && needsSetup == old(needsSetup)
      ensures result.FetchFailed? ==> errorShown == showLoadingSpinner
      ensures result.FetchFailed? ==>
        configUrlOpen == (old(configUrlOpen) || (showLoadingSpinner && (Contains(result.message, "fetch") || Contains(result.message, "API"))))
      ensures editingCase == old(editingCase) && modalOpen == old(modalOpen)
    {
      errorShown := false;
      match result
      case Fetched(fetchedCases, fetchedLists) =>
        cases := fetchedCases;
        if fetchedLists.None? {
          needsSetup := true;
        } else {
          needsSetup := false;
          lists := fetchedLists.value;
        }
      case FetchFailed(message) =>
        if showLoadingSpinner {
          errorShown := true;
          if Contains(message, "fetch") || Contains(message, "API") {
            configUrlOpen := true;
          }
        }
    }

    /**
     * `syncListsWithData(data)`: for each mapped field, insert its trimmed
     * value into its list when absent up to case, and replace `lists` if
     * anything changed. Returns the `api.updateList` requests, whose failures
     * the source ignores.
     */
    method SyncListsWithData(data: PatientCase) returns (writes: seq<ListWrite>)
      modifies this
      ensures lists == Sync(old(lists), data).lists
      ensures writes == Sync(old(lists), data).writes
      ensures cases == old(cases) && needsSetup == old(needsSetup) && editingCase == old(editingCase)
      ensures modalOpen == old(modalOpen) && errorShown == old(errorShown) && configUrlOpen == old(configUrlOpen)
    {
      var updatedLists, hasChanges;
      updatedLists, hasChanges, writes := SyncLoop(lists, data);
      if hasChanges {
        lists := updatedLists;
      }
    }

    /** `handleUpdateList(key, newList)`: replace one list; reload quietly on success, with the spinner after the alert. */
    method HandleUpdateList(key: ListKey, newList: seq<ListItem>, storeOk: bool) returns (reload: Reload)
      modifies this
      ensures lists == Set(old(lists), key, newList)
      ensures forall k :: k != key ==> Get(lists, k) == Get(old(lists), k)
      ensures Get(lists, key) == newList
      ensures reload == if storeOk then ReloadQuietly else ReloadWithSpinner
      ensures cases == old(cases) && needsSetup == old(needsSetup) && editingCase == old(editingCase)
      ensures modalOpen == old(modalOpen) && errorShown == old(errorShown) && configUrlOpen == old(configUrlOpen)
    {
      lists := Set(lists, key, newList);
      reload := if storeOk then ReloadQuietly else ReloadWithSpinner;
    }

    /**
     * `handleAddCase(data)`: give the case the next id, sync the lists, append
     * it optimistically and close the modal; restore the previous cases if
     * the save fails.
     */
    method HandleAddCase(data: PatientCase, saveOk: bool) returns (newCase: PatientCase, reload: Reload)
      modifies this
      ensures newCase == data.(id := NextId(old(cases)))
      ensures lists == Sync(old(lists), newCase).lists
      ensures cases == if saveOk then old(cases) + [newCase] else old(cases)
      ensures reload == if saveOk then ReloadQuietly else NoReload
      ensures !modalOpen
      ensures needsSetup == old(needsSetup) && editingCase == old(editingCase)
      ensures errorShown == old(errorShown) && configUrlOpen == old(configUrlOpen)
    {
      var nextId := NextId(cases);
      newCase := data.(id := nextId);
      var _ := SyncListsWithData(newCase);
      var prevCases := cases;
      cases := cases + [newCase];
      modalOpen := false;
      if saveOk {
        reload := ReloadQuietly;
      } else {
        cases := prevCases;
        reload := NoReload;
      }
    }

    /**
     * `handleUpdateCase(data)`: nothing without a case being edited;
     * otherwise keep its id, sync the lists, replace every case with that id,
     * close the modal and clear the edited case; restore the previous cases
     * if the save fails.
     */
    method HandleUpdateCase(data: PatientCase, saveOk: bool) returns (reload: Reload)
      modifies this
      ensures old(editingCase).None? ==>
        && cases == old(cases) && lists == old(lists) && modalOpen == old(modalOpen)
        && editingCase == old(editingCase) && reload == NoReload
      ensures old(editingCase).Some? ==>
        var updated := data.(id := old(editingCase).value.id);
        && lists == Sync(old(lists), updated).lists
        && cases == (if saveOk then ReplaceById(old(cases), updated.id, updated) else old(cases))
        && !modalOpen && editingCase.None?
        && reload == (if saveOk then ReloadQuietly else NoReload)
      ensures needsSetup == old(needsSetup) && errorShown == old(errorShown) && configUrlOpen == old(configUrlOpen)
    {
      if editingCase.None? {
        reload := NoReload;
        return;
      }
      var editedId := editingCase.value.id;
      var updated := data.(id := editedId);
      var _ := SyncListsWithData(updated);
      var prevCases := cases;
      cases := ReplaceById(cases, editedId, updated);
      modalOpen := false;
      editingCase := None;
      if saveOk {
        reload := ReloadQuietly;
      } else {
        cases := prevCases;
        reload := NoReload;
      }
    }

    /** `handleDeleteCase(id)`: after confirmation drop every case with that id; restore them if the delete fails. */
    method HandleDeleteCase(id: string, confirmed: bool, deleteOk: bool) returns (reload: Reload)
      modifies this
      ensures cases == if confirmed && deleteOk then RemoveById(old(cases), id) else old(cases)
      ensures reload == if confirmed && deleteOk then ReloadQuietly else NoReload
      ensures lists == old(lists) && needsSetup == old(needsSetup) && editingCase == old(editingCase)
      ensures modalOpen == old(modalOpen) && errorShown == old(errorShown) && configUrlOpen == old(configUrlOpen)
    {
      reload := NoReload;
      if confirmed {
        var prevCases := cases;
        cases := RemoveById(cases, id);
        if deleteOk {
          reload := ReloadQuietly;
        } else {
          cases := prevCases;
        }
      }
    }

    /** `openAddModal`. */
    method OpenAddModal()
      modifies this
      ensures editingCase.None? && modalOpen
      ensures cases == old(cases) && lists == old(lists) && needsSetup == old(needsSetup)
      ensures errorShown == old(errorShown) && configUrlOpen == old(configUrlOpen)
    {
      editingCase := None;
      modalOpen := true;
    }

    /** `openEditModal(data)`. */
    method OpenEditModal(data: PatientCase)
      modifies this
      ensures editingCase == Some(data) && modalOpen
      ensures cases == old(cases) && lists == old(lists) && needsSetup == old(needsSetup)
      ensures errorShown == old(errorShown) && configUrlOpen == old(configUrlOpen)
    {
      editingCase := Some(data);
      modalOpen := true;
    }
  }
}
