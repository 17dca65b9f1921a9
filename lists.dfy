/**
 * The category lists (`ListItem`, `AppLists` in types.ts): the Settings
 * screen's `handleAdd`, `toggleActive` and `removePermanently`, and the
 * list bookkeeping of App.tsx `syncListsWithData` as a fold over the
 * field-to-list mapping.
 */
module CategoryLists {
  import opened Options
  import opened Strings
  import opened Seqs
  import opened Cases

  /** One selectable value of a category list. */
  datatype ListItem = ListItem(value: string, active: bool)

  /** The nine keys of `AppLists`. */
  datatype ListKey =
    | PjsList | Ciudades | Medicos | Aseguradoras | Instituciones
    | Dispensaciones | Indicaciones | Distribuidores | DosisList

  datatype AppLists = AppLists(
    pjs: seq<ListItem>, ciudades: seq<ListItem>, medicos: seq<ListItem>, aseguradoras: seq<ListItem>,
    instituciones: seq<ListItem>, dispensaciones: seq<ListItem>, indicaciones: seq<ListItem>,
    distribuidores: seq<ListItem>, dosis: seq<ListItem>)

  /** The lists the application starts with: all nine empty. */
  const EmptyLists: AppLists := AppLists([], [], [], [], [], [], [], [], [])

  /** `lists[key]`. */
  function Get(lists: AppLists, key: ListKey): seq<ListItem> {
    match key
    case PjsList => lists.pjs
    case Ciudades => lists.ciudades
    case Medicos => lists.medicos
    case Aseguradoras => lists.aseguradoras
    case Instituciones => lists.instituciones
    case Dispensaciones => lists.dispensaciones
    case Indicaciones => lists.indicaciones
    case Distribuidores => lists.distribuidores
    case DosisList => lists.dosis
  }

  /** `{ ...lists, [key]: items }`: only `key` changes. */
  function Set(lists: AppLists, key: ListKey, items: seq<ListItem>): (r: AppLists)
    ensures forall k :: Get(r, k) == if k == key then items else Get(lists, k)
  {
    match key
    case PjsList => lists.(pjs := items)
    case Ciudades => lists.(ciudades := items)
    case Medicos => lists.(medicos := items)
    case Aseguradoras => lists.(aseguradoras := items)
    case Instituciones => lists.(instituciones := items)
    case Dispensaciones => lists.(dispensaciones := items)
    case Indicaciones => lists.(indicaciones := items)
    case Distribuidores => lists.(distribuidores := items)
    case DosisList => lists.(dosis := items)
  }

  /** Two values of `AppLists` with the same nine lists are equal. */
  lemma SameListsEqual(a: AppLists, b: AppLists)
    requires forall k :: Get(a, k) == Get(b, k)
    ensures a == b
  {
    assert Get(a, PjsList) == Get(b, PjsList) && Get(a, Ciudades) == Get(b, Ciudades);
    assert Get(a, Medicos) == Get(b, Medicos) && Get(a, Aseguradoras) == Get(b, Aseguradoras);
    assert Get(a, Instituciones) == Get(b, Instituciones) && Get(a, Dispensaciones) == Get(b, Dispensaciones);
    assert Get(a, Indicaciones) == Get(b, Indicaciones) && Get(a, Distribuidores) == Get(b, Distribuidores);
    assert Get(a, DosisList) == Get(b, DosisList);
  }

  // ---------------------------------------------------------------------
  // Case-insensitive presence and sorted insertion
  // ---------------------------------------------------------------------

  function ValueOf(item: ListItem): string { item.value }

  function LowerValue(item: ListItem): string { Lower(item.value) }

  /** `items.some(i => i.value.toLowerCase() === v.toLowerCase())`. */
  predicate HasValueCI(items: seq<ListItem>, v: string) {
    exists i | 0 <= i < |items| :: Lower(items[i].value) == Lower(v)
  }

  /** `[...items, { value, active: true }].sort((a, b) => a.value.localeCompare(b.value))`. */
  function Inserted(items: seq<ListItem>, value: string): (r: seq<ListItem>)
    ensures multiset(r) == multiset(items) + multiset{ListItem(value, true)}
    ensures |r| == |items| + 1
    ensures SortedBy(r, ValueOf)
    ensures HasValueCI(r, value)
  {
    var r := SortBy(items + [ListItem(value, true)], ValueOf);
    assert ListItem(value, true) in multiset(r);
    var i :| 0 <= i < |r| && r[i] == ListItem(value, true);
    r
  }

  /** Whatever was in the list is still in it after an insertion. */
  lemma InsertedKeeps(items: seq<ListItem>, value: string, x: ListItem)
    requires x in items
    ensures x in Inserted(items, value)
  {
    assert x in multiset(items);
    assert x in multiset(Inserted(items, value));
  }

  /** A list whose values are distinct up to case stays so when a value absent up to case is inserted. */
  lemma InsertedUniqueCI(items: seq<ListItem>, value: string)
    requires DistinctBy(items, LowerValue)
    requires !HasValueCI(items, value)
    ensures DistinctBy(Inserted(items, value), LowerValue)
  {
    var xs := items + [ListItem(value, true)];
    forall i, j | 0 <= i < j < |xs| ensures LowerValue(xs[i]) != LowerValue(xs[j]) {
      if j == |items| {
        assert xs[i] == items[i];
      } else {
        assert xs[i] == items[i] && xs[j] == items[j];
      }
    }
    SortByDistinct(xs, ValueOf, LowerValue);
  }

  lemma HasValueCIIn(items: seq<ListItem>, x: ListItem, v: string)
    requires x in items && Lower(x.value) == Lower(v)
    ensures HasValueCI(items, v)
  {
    var i :| 0 <= i < |items| && items[i] == x;
  }

  /** Presence up to case survives an insertion. */
  lemma InsertedKeepsPresence(items: seq<ListItem>, value: string, v: string)
    requires HasValueCI(items, v)
    ensures HasValueCI(Inserted(items, value), v)
  {
    var i :| 0 <= i < |items| && Lower(items[i].value) == Lower(v);
    InsertedKeeps(items, value, items[i]);
    HasValueCIIn(Inserted(items, value), items[i], v);
  }

  // ---------------------------------------------------------------------
  // Settings.tsx ListManager
  // ---------------------------------------------------------------------

  /**
   * What `handleAdd` does: the list handed to `onUpdate` (if any), whether
   * the duplicate alert is shown, and the text left in the input box.
   */
  datatype AddOutcome = AddOutcome(update: Option<seq<ListItem>>, duplicateAlert: bool, inputAfter: string)

  /** `handleAdd` with the input box holding `newItem`. */
  function HandleAdd(items: seq<ListItem>, newItem: string): (r: AddOutcome)
    ensures Trim(newItem) == "" ==> r == AddOutcome(None, false, newItem)
    ensures Trim(newItem) != "" && HasValueCI(items, Trim(newItem)) ==> r == AddOutcome(None, true, "")
    ensures Trim(newItem) != "" && !HasValueCI(items, Trim(newItem)) ==>
      && r.update.Some? && !r.duplicateAlert && r.inputAfter == ""
      && multiset(r.update.value) == multiset(items) + multiset{ListItem(Trim(newItem), true)}
      && SortedBy(r.update.value, ValueOf)
  {
    var trimmed := Trim(newItem);
    if trimmed == "" then AddOutcome(None, false, newItem)
    else if HasValueCI(items, trimmed) then AddOutcome(None, true, "")
    else AddOutcome(Some(Inserted(items, trimmed)), false, "")
  }

  /** Adding keeps the list's values distinct up to case, and makes the new value present. */
  lemma HandleAddKeepsUniqueCI(items: seq<ListItem>, newItem: string)
    requires DistinctBy(items, LowerValue)
    ensures HandleAdd(items, newItem).update.Some? ==>
      && DistinctBy(HandleAdd(items, newItem).update.value, LowerValue)
      && HasValueCI(HandleAdd(items, newItem).update.value, Trim(newItem))
      && |HandleAdd(items, newItem).update.value| == |items| + 1
  {
    if HandleAdd(items, newItem).update.Some? {
      InsertedUniqueCI(items, Trim(newItem));
    }
  }

  /** `toggleActive(val)`: flips `active` on the items whose value is exactly `val`. */
  function ToggleActive(items: seq<ListItem>, val: string): (r: seq<ListItem>)
    ensures |r| == |items|
    ensures forall i :: 0 <= i < |r| ==> r[i].value == items[i].value
    ensures forall i :: 0 <= i < |r| ==> r[i].active == (items[i].active != (items[i].value == val))
  {
    seq(|items|, i requires 0 <= i < |items| =>
      if items[i].value == val then items[i].(active := !items[i].active) else items[i])
  }

  /** Toggling the same value twice restores the list. */
  lemma ToggleActiveTwice(items: seq<ListItem>, val: string)
    ensures ToggleActive(ToggleActive(items, val), val) == items
  {
    var r := ToggleActive(ToggleActive(items, val), val);
    assert |r| == |items|;
    forall i | 0 <= i < |r| ensures r[i] == items[i] {
      assert r[i].value == items[i].value && r[i].active == items[i].active;
    }
  }

  /** Toggling a value no item has changes nothing. */
  lemma ToggleActiveAbsent(items: seq<ListItem>, val: string)
    requires forall i :: 0 <= i < |items| ==> items[i].value != val
    ensures ToggleActive(items, val) == items
  {
    var r := ToggleActive(items, val);
    forall i | 0 <= i < |r| ensures r[i] == items[i] {
      assert r[i].value == items[i].value && r[i].active == items[i].active;
    }
  }

  function ValueIsNot(val: string): ListItem -> bool {
    (item: ListItem) => item.value != val
  }

  /** `removePermanently(val)`: nothing unless the user confirms, then every item with value `val` goes. */
  function RemovePermanently(items: seq<ListItem>, val: string, confirmed: bool): (r: Option<seq<ListItem>>)
    ensures !confirmed <==> r.None?
    ensures r.Some? ==> IsSubsequence(r.value, items)
    ensures r.Some? ==> forall x :: x in r.value <==> x in items && x.value != val
    ensures r.Some? ==> forall x :: multiset(r.value)[x] == if x.value == val then 0 else multiset(items)[x]
  {
    if confirmed then Some(Filter(ValueIsNot(val), items)) else None
  }

  // ---------------------------------------------------------------------
  // App.tsx syncListsWithData
  // ---------------------------------------------------------------------

  /** The list each case field feeds, in the order `Object.entries(listFieldMapping)` visits them. */
  const SyncMapping: seq<(Field, ListKey)> := [
    (Pjs, PjsList), (Ciudad, Ciudades), (Medico, Medicos), (Aseguradora, Aseguradoras),
    (Institucion, Instituciones), (Dispensacion, Dispensaciones), (Indicacion, Indicaciones),
    (Distribuidor, Distribuidores), (Dosis, DosisList)]

  /** The position of a list in the mapping. */
  function KeyIndex(k: ListKey): nat {
    match k
    case PjsList => 0
    case Ciudades => 1
    case Medicos => 2
    case Aseguradoras => 3
    case Instituciones => 4
    case Dispensaciones => 5
    case Indicaciones => 6
    case Distribuidores => 7
    case DosisList => 8
  }

  /** The case field that feeds list `k`. */
  function FieldFor(k: ListKey): Field {
    SyncMapping[KeyIndex(k)].0
  }

  /** Every list appears exactly once in the mapping, at its own position. */
  lemma MappingCoversEachListOnce(i: int, k: ListKey)
    requires 0 <= i < |SyncMapping|
    ensures KeyIndex(SyncMapping[i].1) == i
    ensures KeyIndex(k) < |SyncMapping| && SyncMapping[KeyIndex(k)].1 == k
  {
  }

  /** One `api.updateList(listKey, newList)` request. */
  datatype ListWrite = ListWrite(key: ListKey, items: seq<ListItem>)

  /** The loop state: `updatedLists`, `hasChanges`, and the store writes issued so far. */
  datatype SyncState = SyncState(lists: AppLists, hasChanges: bool, writes: seq<ListWrite>)

  /** What list `k` becomes for the field value `v`: unchanged unless a non-blank value is absent up to case. */
  function AfterSync(items: seq<ListItem>, v: Option<string>): seq<ListItem> {
    if v.Some? && Trim(v.value) != "" && !HasValueCI(items, Trim(v.value)) then Inserted(items, Trim(v.value))
    else items
  }

  /** One iteration of the `for … of Object.entries(listFieldMapping)` loop. */
  function SyncStep(s: SyncState, data: PatientCase, entry: (Field, ListKey)): SyncState {
    match FieldOf(data, entry.0)
    case None => s
    case Some(value) =>
      if Trim(value) == "" then s
      else
        var cleanValue := Trim(value);
        var targetList := Get(s.lists, entry.1);
        if HasValueCI(targetList, cleanValue) then s
        else
          var newList := Inserted(targetList, cleanValue);
          SyncState(Set(s.lists, entry.1, newList), true, s.writes + [ListWrite(entry.1, newList)])
  }

  /** The loop state after the first `n` entries of the mapping. */
  function SyncUpTo(lists: AppLists, data: PatientCase, n: nat): SyncState
    requires n <= |SyncMapping|
  {
    if n == 0 then SyncState(lists, false, [])
    else SyncStep(SyncUpTo(lists, data, n - 1), data, SyncMapping[n - 1])
  }

  /** The loop state after the whole mapping. */
  function Sync(lists: AppLists, data: PatientCase): SyncState {
    SyncUpTo(lists, data, |SyncMapping|)
  }

  /** List `k` changes under the sync: its field holds a non-blank value the list lacks, up to case. */
  predicate ChangesList(lists: AppLists, data: PatientCase, k: ListKey) {
    var v := FieldOf(data, FieldFor(k));
    v.Some? && Trim(v.value) != "" && !HasValueCI(Get(lists, k), Trim(v.value))
  }

  /** A list changes exactly when its `AfterSync` value differs from it. */
  lemma ChangesListIff(lists: AppLists, data: PatientCase, k: ListKey)
    ensures ChangesList(lists, data, k) <==> AfterSync(Get(lists, k), FieldOf(data, FieldFor(k))) != Get(lists, k)
  {
  }

  /** One step touches only its own list, which becomes its `AfterSync` value, and records a write iff that list changed. */
  lemma SyncStepEffect(s: SyncState, data: PatientCase, entry: (Field, ListKey))
    ensures var r := SyncStep(s, data, entry);
      var after := AfterSync(Get(s.lists, entry.1), FieldOf(data, entry.0));
      && (forall k :: Get(r.lists, k) == if k == entry.1 then after else Get(s.lists, k))
      && r.hasChanges == (s.hasChanges || after != Get(s.lists, entry.1))
      && r.writes == s.writes + (if after != Get(s.lists, entry.1) then [ListWrite(entry.1, after)] else [])
  {
    var items := Get(s.lists, entry.1);
    var v := FieldOf(data, entry.0);
    if v.Some? && Trim(v.value) != "" && !HasValueCI(items, Trim(v.value)) {
      var after := Inserted(items, Trim(v.value));
      assert |after| == |items| + 1;
      assert SyncStep(s, data, entry) == SyncState(Set(s.lists, entry.1, after), true, s.writes + [ListWrite(entry.1, after)]);
    } else {
      assert SyncStep(s, data, entry) == s;
      assert s.writes + [] == s.writes;
    }
  }

  /** After `n` steps each list already visited is its `AfterSync` value and every other list is untouched. */
  lemma {:induction false} SyncUpToLists(lists: AppLists, data: PatientCase, n: nat)
    requires n <= |SyncMapping|
    ensures forall k ::
      Get(SyncUpTo(lists, data, n).lists, k) ==
        if KeyIndex(k) < n then AfterSync(Get(lists, k), FieldOf(data, FieldFor(k))) else Get(lists, k)
  {
    if n > 0 {
      SyncUpToLists(lists, data, n - 1);
      var entry := SyncMapping[n - 1];
      SyncStepEffect(SyncUpTo(lists, data, n - 1), data, entry);
      MappingCoversEachListOnce(n - 1, entry.1);
      forall k | k != entry.1 ensures KeyIndex(k) != n - 1 {
        MappingCoversEachListOnce(n - 1, k);
      }
    }
  }

  /** After `n` steps a change was recorded iff a write was issued. */
  lemma {:induction false} SyncUpToChangesWritten(lists: AppLists, data: PatientCase, n: nat)
    requires n <= |SyncMapping|
    ensures SyncUpTo(lists, data, n).hasChanges <==> SyncUpTo(lists, data, n).writes != []
  {
    if n > 0 {
      SyncUpToChangesWritten(lists, data, n - 1);
      SyncStepEffect(SyncUpTo(lists, data, n - 1), data, SyncMapping[n - 1]);
    }
  }

  /** Some list among the first `n` of the mapping is changed by the sync. */
  ghost predicate ChangedBelow(lists: AppLists, data: PatientCase, n: nat) {
    exists k :: KeyIndex(k) < n && ChangesList(lists, data, k)
  }

  lemma ChangedBelowStep(lists: AppLists, data: PatientCase, n: nat)
    requires 0 < n <= |SyncMapping|
    ensures ChangedBelow(lists, data, n) <==>
      ChangedBelow(lists, data, n - 1) || ChangesList(lists, data, SyncMapping[n - 1].1)
  {
    var key := SyncMapping[n - 1].1;
    MappingCoversEachListOnce(n - 1, key);
    if ChangesList(lists, data, key) {
      assert KeyIndex(key) < n;
    }
    if ChangedBelow(lists, data, n) {
      var k :| KeyIndex(k) < n && ChangesList(lists, data, k);
      if KeyIndex(k) == n - 1 {
        MappingCoversEachListOnce(n - 1, k);
      }
    }
  }

  /** Step `n` records a change iff an earlier step did or its own list changes. */
  lemma SyncUpToChangesStep(lists: AppLists, data: PatientCase, n: nat)
    requires 0 < n <= |SyncMapping|
    ensures SyncUpTo(lists, data, n).hasChanges ==
      (SyncUpTo(lists, data, n - 1).hasChanges || ChangesList(lists, data, SyncMapping[n - 1].1))
  {
    var entry := SyncMapping[n - 1];
    var prev := SyncUpTo(lists, data, n - 1);
    MappingCoversEachListOnce(n - 1, entry.1);
    SyncUpToLists(lists, data, n - 1);
    SyncStepEffect(prev, data, entry);
    assert Get(prev.lists, entry.1) == Get(lists, entry.1);
    assert FieldFor(entry.1) == entry.0;
    ChangesListIff(lists, data, entry.1);
  }

  /** After `n` steps a change was recorded iff a visited list changed. */
  lemma {:induction false} SyncUpToChanges(lists: AppLists, data: PatientCase, n: nat)
    requires n <= |SyncMapping|
    ensures SyncUpTo(lists, data, n).hasChanges <==> ChangedBelow(lists, data, n)
  {
    if n > 0 {
      SyncUpToChanges(lists, data, n - 1);
      ChangedBelowStep(lists, data, n);
      SyncUpToChangesStep(lists, data, n);
    }
  }

  /** Each write names a visited list and carries that list's final contents. */
  lemma {:induction false} SyncUpToWrites(lists: AppLists, data: PatientCase, n: nat)
    requires n <= |SyncMapping|
    ensures forall w :: w in SyncUpTo(lists, data, n).writes ==>
      KeyIndex(w.key) < n && Get(SyncUpTo(lists, data, n).lists, w.key) == w.items
  {
    if n > 0 {
      SyncUpToWrites(lists, data, n - 1);
      var entry := SyncMapping[n - 1];
      var prev := SyncUpTo(lists, data, n - 1);
      var r := SyncUpTo(lists, data, n);
      SyncStepEffect(prev, data, entry);
      MappingCoversEachListOnce(n - 1, entry.1);
      forall w | w in r.writes
        ensures KeyIndex(w.key) < n && Get(r.lists, w.key) == w.items
      {
        if w in prev.writes {
          assert w.key != entry.1;
        }
      }
    }
  }

  /** Sync in closed form: each list is its `AfterSync` value, and `hasChanges` tells whether any list changed. */
  lemma SyncClosedForm(lists: AppLists, data: PatientCase)
    ensures forall k :: Get(Sync(lists, data).lists, k) == AfterSync(Get(lists, k), FieldOf(data, FieldFor(k)))
    ensures Sync(lists, data).hasChanges <==> exists k :: ChangesList(lists, data, k)
    ensures Sync(lists, data).hasChanges <==> Sync(lists, data).writes != []
    ensures !Sync(lists, data).hasChanges ==> Sync(lists, data).lists == lists
  {
    SyncUpToLists(lists, data, |SyncMapping|);
    SyncUpToChanges(lists, data, |SyncMapping|);
    SyncUpToChangesWritten(lists, data, |SyncMapping|);
    forall k ensures KeyIndex(k) < |SyncMapping| { MappingCoversEachListOnce(0, k); }
    if !Sync(lists, data).hasChanges {
      SameListsEqual(Sync(lists, data).lists, lists);
    }
  }

  /** After a sync every non-blank mapped field value is present, up to case, in its list. */
  lemma SyncCoversData(lists: AppLists, data: PatientCase, k: ListKey)
    requires FieldOf(data, FieldFor(k)).Some? && Trim(FieldOf(data, FieldFor(k)).value) != ""
    ensures HasValueCI(Get(Sync(lists, data).lists, k), Trim(FieldOf(data, FieldFor(k)).value))
  {
    SyncClosedForm(lists, data);
  }

  /**
   * A sync keeps every existing item; a list it changes gains exactly one
   * active item, the trimmed field value, and comes out sorted; a blank
   * field leaves its list alone.
   */
  lemma SyncKeepsAndAdds(lists: AppLists, data: PatientCase, k: ListKey)
    ensures var v := FieldOf(data, FieldFor(k));
      var after := Get(Sync(lists, data).lists, k);
      && (forall x :: x in Get(lists, k) ==> x in after)
      && (ChangesList(lists, data, k) ==>
            && multiset(after) == multiset(Get(lists, k)) + multiset{ListItem(Trim(v.value), true)}
            && SortedBy(after, ValueOf))
      && (v.None? || Trim(v.value) == "" ==> after == Get(lists, k))
  {
    SyncClosedForm(lists, data);
    var v := FieldOf(data, FieldFor(k));
    if v.Some? && Trim(v.value) != "" && !HasValueCI(Get(lists, k), Trim(v.value)) {
      forall x | x in Get(lists, k) ensures x in Get(Sync(lists, data).lists, k) {
        InsertedKeeps(Get(lists, k), Trim(v.value), x);
      }
    }
  }

  /** Syncing the same data a second time changes nothing. */
  lemma SyncIdempotent(lists: AppLists, data: PatientCase)
    ensures !Sync(Sync(lists, data).lists, data).hasChanges
    ensures Sync(Sync(lists, data).lists, data).lists == Sync(lists, data).lists
  {
    var once := Sync(lists, data).lists;
    SyncClosedForm(lists, data);
    SyncClosedForm(once, data);
    forall k ensures !ChangesList(once, data, k) {
      var v := FieldOf(data, FieldFor(k));
      if v.Some? && Trim(v.value) != "" {
        SyncCoversData(lists, data, k);
      }
    }
  }

  /** With every mapped field blank, the sync does nothing at all. */
  lemma SyncOfBlankData(lists: AppLists, data: PatientCase)
    requires forall k :: FieldOf(data, FieldFor(k)).None? || Trim(FieldOf(data, FieldFor(k)).value) == ""
    ensures Sync(lists, data) == SyncState(lists, false, [])
  {
    SyncClosedForm(lists, data);
    assert forall k :: !ChangesList(lists, data, k);
  }
}
