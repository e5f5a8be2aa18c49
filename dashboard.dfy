/** The dashboard (`DashboardController`): the person and category filters,
    the statistics over the filtered expenses, the button captions, the
    multi-select dialog and the guarded data load. */
module Dashboard {
  import opened Wrappers
  import opened TaxModel
  import JavaStrings
  import SmartCache

  // ---------------------------------------------------------------------
  // Filtering
  // ---------------------------------------------------------------------

  /** The table's predicate: an empty selection lets everything through. */
  predicate Matches(personIds: set<string>, categories: set<ExpenseType>, e: Expense) {
    && (personIds == {} || e.person.id in personIds)
    && (categories == {} || e.expenseType in categories)
  }

  /** The expenses the table shows, in master-list order. */
  function Filtered(data: seq<Expense>, personIds: set<string>, categories: set<ExpenseType>): (r: seq<Expense>)
    ensures |r| <= |data|
    ensures forall e :: e in r <==> e in data && Matches(personIds, categories, e)
    decreases |data|
  {
    if data == [] then []
    else
      var rest := Filtered(data[1..], personIds, categories);
      if Matches(personIds, categories, data[0]) then [data[0]] + rest else rest
  }

  /** Filtering works row by row: it distributes over concatenation, and a
      single row is kept exactly when it matches. With the two clauses the
      filtered list is fixed, order and repetitions included. */
  lemma {:induction false} FilteredDistributes(a: seq<Expense>, b: seq<Expense>, personIds: set<string>, categories: set<ExpenseType>)
    ensures Filtered(a + b, personIds, categories) == Filtered(a, personIds, categories) + Filtered(b, personIds, categories)
    ensures forall e :: Filtered([e], personIds, categories) == if Matches(personIds, categories, e) then [e] else []
  {
    FilteredAppend(a, b, personIds, categories);
    forall e ensures Filtered([e], personIds, categories) == if Matches(personIds, categories, e) then [e] else [] {
      FilteredSingle(e, personIds, categories);
    }
  }

  lemma {:induction false} FilteredAppend(a: seq<Expense>, b: seq<Expense>, personIds: set<string>, categories: set<ExpenseType>)
    ensures Filtered(a + b, personIds, categories) == Filtered(a, personIds, categories) + Filtered(b, personIds, categories)
    decreases |a|
  {
    if a != [] {
      assert (a + b)[0] == a[0];
      assert (a + b)[1..] == a[1..] + b;
      FilteredAppend(a[1..], b, personIds, categories);
    } else {
      assert a + b == b;
    }
  }

  lemma FilteredSingle(e: Expense, personIds: set<string>, categories: set<ExpenseType>)
    ensures Filtered([e], personIds, categories) == if Matches(personIds, categories, e) then [e] else []
  {
    assert [e][1..] == [];
  }

  /** With nothing selected the table shows the whole master list, as the
      initial `p -> true` predicate does. */
  lemma {:induction false} NoSelectionShowsAll(data: seq<Expense>)
    ensures Filtered(data, {}, {}) == data
    decreases |data|
  {
    if data != [] {
      NoSelectionShowsAll(data[1..]);
    }
  }

  // ---------------------------------------------------------------------
  // Statistics
  // ---------------------------------------------------------------------

  predicate IsCompleted(e: Expense) {
    e.state == Some(Completed)
  }

  function CountCompleted(s: seq<Expense>): (n: nat)
    ensures n <= |s|
    decreases |s|
  {
    if s == [] then 0 else (if IsCompleted(s[0]) then 1 else 0) + CountCompleted(s[1..])
  }

  datatype Stats = Stats(total: int, completed: int, partial: int)

  /** `updateUiStats()` over the filtered expenses. */
  function ComputeStats(filtered: seq<Expense>): (st: Stats)
    ensures st.total == |filtered| && st.completed == CountCompleted(filtered)
    ensures 0 <= st.completed && 0 <= st.partial
    ensures st.completed + st.partial == st.total
  {
    var total := |filtered|;
    var completed := CountCompleted(filtered);
    Stats(total, completed, total - completed)
  }

  /** Nothing is left to complete exactly when every shown expense is COMPLETED. */
  lemma {:induction false} NoPartialIffAllCompleted(s: seq<Expense>)
    ensures ComputeStats(s).partial == 0 <==> forall i :: 0 <= i < |s| ==> IsCompleted(s[i])
    decreases |s|
  {
    if s != [] {
      NoPartialIffAllCompleted(s[1..]);
      assert forall i :: 1 <= i < |s| ==> s[i] == s[1..][i - 1];
    }
  }

  // ---------------------------------------------------------------------
  // Button captions
  // ---------------------------------------------------------------------

  const PersonsCaption: string := "Persone"
  const CategoriesCaption: string := "Categorie"
  const ActiveFilterStyle: string := "-fx-base: #e3f2fd; -fx-text-fill: #0d47a1;"

  /** The caption of a filter button holding `n` selected entries. */
  function ButtonLabel(base: string, n: nat): (s: string)
    ensures s == base <==> n == 0
    ensures n > 0 ==> s == base + " (" + JavaStrings.NatToString(n) + ")"
  {
    if n == 0 then base else base + " (" + JavaStrings.NatToString(n) + ")"
  }

  /** The caption tells the selection size: different sizes, different captions. */
  lemma ButtonLabelInjective(base: string, n: nat, m: nat)
    requires ButtonLabel(base, n) == ButtonLabel(base, m)
    ensures n == m
  {
    if n > 0 && m > 0 {
      var sn, sm := JavaStrings.NatToString(n), JavaStrings.NatToString(m);
      var ln, lm := ButtonLabel(base, n), ButtonLabel(base, m);
      assert ln[|base| + 2..|ln| - 1] == sn;
      assert lm[|base| + 2..|lm| - 1] == sm;
      JavaStrings.NatToStringDigits(n);
      JavaStrings.NatToStringDigits(m);
    }
  }

  function ButtonStyle(n: nat): (s: string)
    ensures s == "" <==> n == 0
    ensures n > 0 ==> s == ActiveFilterStyle
  {
    if n == 0 then "" else ActiveFilterStyle
  }

  // ---------------------------------------------------------------------
  // The multi-select dialog
  // ---------------------------------------------------------------------

  /** A check box of the dialog changing to `selected`; `index` is its item. */
  datatype Toggle = Toggle(index: nat, selected: bool)

  ghost predicate TogglesFit(ids: seq<string>, toggles: seq<Toggle>) {
    forall k :: 0 <= k < |toggles| ==> toggles[k].index < |ids|
  }

  /** The working copy after the check-box listeners ran, in order. */
  function ApplyToggles(ids: seq<string>, temp: set<string>, toggles: seq<Toggle>): (r: set<string>)
    requires TogglesFit(ids, toggles)
    decreases |toggles|
  {
    if toggles == [] then temp
    else
      var t := toggles[0];
      var next := if t.selected then temp + {ids[t.index]} else temp - {ids[t.index]};
      ApplyToggles(ids, next, toggles[1..])
  }

  /** The last change made to `x`'s check box, if any. */
  function LastToggle(ids: seq<string>, toggles: seq<Toggle>, x: string): Option<bool>
    requires TogglesFit(ids, toggles)
    decreases |toggles|
  {
    if toggles == [] then None
    else
      var later := LastToggle(ids, toggles[1..], x);
      if later.Some? then later
      else if ids[toggles[0].index] == x then Some(toggles[0].selected)
      else None
  }

  /** An id ends up selected exactly when its last change selected it, or it
      was never changed and was selected before. */
  lemma {:induction false} ApplyTogglesMembership(ids: seq<string>, temp: set<string>, toggles: seq<Toggle>, x: string)
    requires TogglesFit(ids, toggles)
    ensures x in ApplyToggles(ids, temp, toggles) <==>
      LastToggle(ids, toggles, x) == Some(true) || (LastToggle(ids, toggles, x).None? && x in temp)
    decreases |toggles|
  {
    if toggles != [] {
      var t := toggles[0];
      var next := if t.selected then temp + {ids[t.index]} else temp - {ids[t.index]};
      ApplyTogglesMembership(ids, next, toggles[1..], x);
    }
  }

  /** `showMultiSelectDialog`: the dialog edits a copy of `current`; "Applica"
      (`applied`) hands the copy over, cancelling yields nothing. */
  function MultiSelect(ids: seq<string>, current: set<string>, toggles: seq<Toggle>, applied: bool): (r: Option<set<string>>)
    requires TogglesFit(ids, toggles)
    ensures r.Some? <==> applied
    ensures r.Some? ==> r.value == ApplyToggles(ids, current, toggles)
  {
    if applied then Some(ApplyToggles(ids, current, toggles)) else None
  }

  /** The dialog only adds ids that it lists. */
  lemma {:induction false} MultiSelectBounded(ids: seq<string>, current: set<string>, toggles: seq<Toggle>)
    requires TogglesFit(ids, toggles)
    ensures forall x :: x in ApplyToggles(ids, current, toggles) ==> x in current || x in ids
    decreases |toggles|
  {
    if toggles != [] {
      var t := toggles[0];
      var next := if t.selected then current + {ids[t.index]} else current - {ids[t.index]};
      MultiSelectBounded(ids, next, toggles[1..]);
    }
  }

  function PersonIds(persons: seq<Person>): (ids: seq<string>)
    ensures |ids| == |persons|
    ensures forall i :: 0 <= i < |persons| ==> ids[i] == persons[i].id
  {
    seq(|persons|, i requires 0 <= i < |persons| => persons[i].id)
  }

  function TypeNames(types: seq<ExpenseType>): (names: seq<string>)
    ensures |names| == |types|
    ensures forall i :: 0 <= i < |types| ==> names[i] == types[i].name
  {
    seq(|types|, i requires 0 <= i < |types| => types[i].name)
  }

  /** `selectedCategories.stream().map(Enum::name)`. */
  function CategoryNames(categories: set<ExpenseType>): set<string> {
    set c | c in categories :: c.name
  }

  /** `names.stream().map(ExpenseType::valueOf)`. */
  function CategoriesNamed(names: set<string>): set<ExpenseType> {
    set n | n in names :: ExpenseType(n)
  }

  /** Going to names and back loses no category. */
  lemma CategoryNamesRoundTrip(categories: set<ExpenseType>)
    ensures CategoriesNamed(CategoryNames(categories)) == categories
  {
    forall c | c in categories ensures c in CategoriesNamed(CategoryNames(categories)) {
      assert c.name in CategoryNames(categories);
      assert ExpenseType(c.name) == c;
    }
  }

  // ---------------------------------------------------------------------
  // Loading a year
  // ---------------------------------------------------------------------

  /** An empty year list gets the current year. */
  function SeedYears(years: seq<string>, currentYear: int): (r: seq<string>)
    ensures |r| > 0
    ensures years != [] ==> r == years
    ensures years == [] ==> r == [JavaStrings.IntToString(currentYear)]
  {
    if years == [] then [JavaStrings.IntToString(currentYear)] else years
  }

  /** Keep the chosen year if the list has it, otherwise the first year. */
  function YearToLoad(years: seq<string>, selected: Option<string>): (y: string)
    requires |years| > 0
    ensures y in years
    ensures selected.Some? && selected.value in years ==> y == selected.value
    ensures !(selected.Some? && selected.value in years) ==> y == years[0]
  {
    if selected.Some? && selected.value in years then selected.value else years[0]
  }

  /** A load accepted by `loadData`: the year chosen when it was asked. */
  datatype LoadRequest = LoadRequest(selectedYear: Option<string>)

  datatype LoadResult = LoadResult(years: seq<string>, loadedYear: string, expenses: seq<Expense>, persons: seq<Person>)

  /** The body of the load task; the arguments after `mgr` are what `init`
      would find. */
  method RunLoadTask(req: LoadRequest, mgr: SmartCache.ServiceManager, cfg: SmartCache.Config,
                     db: SmartCache.MetadataStore, store: SmartCache.RemoteStore, mkdirOk: bool, currentYear: int)
    returns (r: Result<LoadResult, SmartCache.Error>)
    requires mgr.Valid()
    modifies mgr
    ensures mgr.Valid()
    ensures mgr.LazilyInitialised(cfg, db, store, mkdirOk)
    ensures mgr.IsReady() <==> old(mgr.IsReady()) || SmartCache.InitFailure(cfg).None?
    ensures !old(mgr.IsReady()) && SmartCache.InitResult(cfg, old(mgr.cache), mkdirOk).Err? ==>
      r == Err(SmartCache.InitResult(cfg, old(mgr.cache), mkdirOk).error)
    ensures (old(mgr.IsReady()) || SmartCache.InitResult(cfg, old(mgr.cache), mkdirOk).Ok?) ==>
      var meta := if old(mgr.IsReady()) then old(mgr.metadata).value else db;
      && r.Ok?
      && r.value.years == SeedYears(meta.years, currentYear)
      && r.value.loadedYear == YearToLoad(r.value.years, req.selectedYear)
      && r.value.loadedYear in r.value.years
      && r.value.expenses == SmartCache.FindByYear(meta, r.value.loadedYear)
      && r.value.persons == meta.persons
  {
    var i := mgr.EnsureReady(cfg, db, store, mkdirOk);
    if i.Err? {
      return Err(i.error);
    }
    var meta := mgr.GetMetadata().value;
    var years := SeedYears(meta.years, currentYear);
    var yearToLoad := YearToLoad(years, req.selectedYear);
    var expenses := SmartCache.FindByYear(meta, yearToLoad);
    var persons := mgr.GetService().value.metadata.persons;
    r := Ok(LoadResult(years, yearToLoad, expenses, persons));
  }

  // ---------------------------------------------------------------------
  // The controller
  // ---------------------------------------------------------------------

  class DashboardController {
    var masterData: seq<Expense>
    var allPersons: seq<Person>
    var selectedPersonIds: set<string>
    var selectedCategories: set<ExpenseType>
    var isUpdating: bool
    var yearItems: seq<string>
    var yearValue: Option<string>
    var personButtonText: string
    var categoryButtonText: string
    var personButtonStyle: string
    var categoryButtonStyle: string
    var stats: Stats

    /** The expenses the table shows. */
    function FilteredData(): seq<Expense>
      reads this
    {
      Filtered(masterData, selectedPersonIds, selectedCategories)
    }

    /** Captions, styles and statistics agree with the current selection. */
    ghost predicate Displayed()
      reads this
    {
      && personButtonText == ButtonLabel(PersonsCaption, |selectedPersonIds|)
      && categoryButtonText == ButtonLabel(CategoriesCaption, |selectedCategories|)
      && personButtonStyle == ButtonStyle(|selectedPersonIds|)
      && categoryButtonStyle == ButtonStyle(|selectedCategories|)
      && stats == ComputeStats(FilteredData())
    }

    /** `initialize()`: an empty master list with everything let through.
        The initial captions come from the view file and are not modelled. */
    constructor ()
      ensures masterData == [] && allPersons == [] && yearItems == [] && yearValue == None
      ensures selectedPersonIds == {} && selectedCategories == {} && !isUpdating
    {
      masterData := [];
      allPersons := [];
      selectedPersonIds := {};
      selectedCategories := {};
      isUpdating := false;
      yearItems := [];
      yearValue := None;
      personButtonText := "";
      categoryButtonText := "";
      personButtonStyle := "";
      categoryButtonStyle := "";
      stats := Stats(0, 0, 0);
    }

    /** `applyFilters()`: install the predicate, then refresh captions and
        statistics. */
    method ApplyFilters()
      modifies this
      ensures Displayed()
      ensures masterData == old(masterData) && allPersons == old(allPersons)
      ensures selectedPersonIds == old(selectedPersonIds) && selectedCategories == old(selectedCategories)
      ensures isUpdating == old(isUpdating) && yearItems == old(yearItems) && yearValue == old(yearValue)
    {
      personButtonText := ButtonLabel(PersonsCaption, |selectedPersonIds|);
      categoryButtonText := ButtonLabel(CategoriesCaption, |selectedCategories|);
      personButtonStyle := ButtonStyle(|selectedPersonIds|);
      categoryButtonStyle := ButtonStyle(|selectedCategories|);
      var filtered := FilteredData();
      stats := ComputeStats(filtered);
    }

    /** `filterAll()`: clear both selections; the table then shows every expense. */
    method FilterAll()
      modifies this
      ensures selectedPersonIds == {} && selectedCategories == {}
      ensures FilteredData() == masterData
      ensures Displayed()
      ensures masterData == old(masterData) && allPersons == old(allPersons) && isUpdating == old(isUpdating)
      ensures yearItems == old(yearItems) && yearValue == old(yearValue)
    {
      selectedPersonIds := {};
      selectedCategories := {};
      ApplyFilters();
      NoSelectionShowsAll(masterData);
    }

    /** `filterPerson()`: the dialog over all persons' ids; on "Applica" the
        edited copy replaces the selection, on cancel nothing changes. */
    method FilterPerson(toggles: seq<Toggle>, applied: bool)
      requires TogglesFit(PersonIds(allPersons), toggles)
      modifies this
      ensures !applied ==> unchanged(this)
      ensures applied ==>
        && selectedPersonIds == ApplyToggles(PersonIds(old(allPersons)), old(selectedPersonIds), toggles)
        && selectedCategories == old(selectedCategories)
        && masterData == old(masterData) && allPersons == old(allPersons)
        && isUpdating == old(isUpdating) && yearItems == old(yearItems) && yearValue == old(yearValue)
        && Displayed()
    {
      var result := MultiSelect(PersonIds(allPersons), selectedPersonIds, toggles, applied);
      if result.Some? {
        selectedPersonIds := result.value;
        ApplyFilters();
      }
    }

    /** `filterCategory()`: the same dialog over the category names. */
    method FilterCategory(types: seq<ExpenseType>, toggles: seq<Toggle>, applied: bool)
      requires TogglesFit(TypeNames(types), toggles)
      modifies this
      ensures !applied ==> unchanged(this)
      ensures applied ==>
        && selectedCategories ==
             CategoriesNamed(ApplyToggles(TypeNames(types), CategoryNames(old(selectedCategories)), toggles))
        && selectedPersonIds == old(selectedPersonIds)
        && masterData == old(masterData) && allPersons == old(allPersons)
        && isUpdating == old(isUpdating) && yearItems == old(yearItems) && yearValue == old(yearValue)
        && Displayed()
    {
      var result := MultiSelect(TypeNames(types), CategoryNames(selectedCategories), toggles, applied);
      if result.Some? {
        selectedCategories := CategoriesNamed(result.value);
        ApplyFilters();
      }
    }

    /** The guard at the top of `loadData()`: no new load while the results of
        the last one are being shown. */
    method RequestLoad() returns (req: Option<LoadRequest>)
      ensures req.None? <==> isUpdating
      ensures req.Some? ==> req.value.selectedYear == yearValue
    {
      if isUpdating {
        return None;
      }
      req := Some(LoadRequest(yearValue));
    }

    /** The load task's success handler. Choosing the loaded year in the year
        box fires the box's action, `loadData()`; that nested request is the
        `nested` result, and the guard turns it away. */
    method OnLoadSucceeded(result: LoadResult) returns (nested: Option<LoadRequest>)
      modifies this
      ensures nested == None
      ensures !isUpdating
      ensures yearItems == result.years && yearValue == Some(result.loadedYear)
      ensures allPersons == result.persons && masterData == result.expenses
      ensures selectedPersonIds == old(selectedPersonIds) && selectedCategories == old(selectedCategories)
      ensures Displayed()
    {
      isUpdating := true;
      yearItems := result.years;
      yearValue := Some(result.loadedYear);
      nested := RequestLoad();
      allPersons := result.persons;
      masterData := result.expenses;
      ApplyFilters();
      isUpdating := false;
    }
  }
}
