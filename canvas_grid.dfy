/**
 * The host adapter: the control object the platform drives through its
 * lifecycle (`updateView`, `getOutputs`) and whose handlers the grid view
 * calls. Calls into the host (`refresh`, `loadExactPage`, `setFilter`,
 * `clearFilter`, `setPageSize`, `setFullScreen`) are appended to a request
 * log; `notifyOutputChanged` is counted.
 */
module CanvasGrid {
  import opened DataSetApi
  import GridColumns

  /**
   * The `condition` argument of `onFilter` as it arrives at run time: the two
   * strings its type names, any other truthy value (the grid view passes
   * `true`), or a falsy one (`null`, `false`, the empty string).
   */
  datatype FilterCondition = Contains | Equals | OtherTruthy | Falsy

  /** A call into the host platform. */
  datatype HostRequest =
    | Refresh
    | LoadExactPage(page: int)
    | SetFilter(expression: FilterExpression)
    | ClearFilter
    | SetPageSize(size: int)
    | SetFullScreen(on: bool)

  /** Operator code of a truthy condition: 8 for "contains", 0 for "equals" and for anything else. */
  function ConditionOperator(c: FilterCondition): (op: int)
    requires c != Falsy
    ensures op == OperatorContains <==> c == Contains
    ensures op == OperatorEqual <==> c != Contains
  {
    match c
    case Contains => OperatorContains
    case Equals => OperatorEqual
    case OtherTruthy => OperatorEqual
  }

  /**
   * A condition's value: the lone string when exactly one value is given,
   * otherwise the list itself, or the empty list when no list is given.
   */
  function FilterValueOf(values: Option<seq<string>>): (v: FilterValue)
    ensures v.Single? <==> values.Some? && |values.value| == 1
    ensures v.Single? ==> v.value == values.value[0]
    ensures v.Many? ==> v.values == if values.Some? then values.value else []
  {
    if values.Some? && |values.value| == 1 then Single(values.value[0])
    else if values.Some? then Many(values.value)
    else Many([])
  }

  /** The strings a condition value stands for. */
  function ValuesOf(v: FilterValue): seq<string>
  {
    match v
    case Single(s) => [s]
    case Many(vs) => vs
  }

  /** Encoding the values as a condition value loses none of them, and no list means no values. */
  lemma FilterValueRoundTrip(values: Option<seq<string>>)
    ensures ValuesOf(FilterValueOf(values)) == if values.Some? then values.value else []
  {
    if values.Some? && |values.value| == 1 {
      assert values.value == [values.value[0]];
    }
  }

  /** The filter expression `onFilter` sets for a truthy condition: one condition, joined by And. */
  function FilterExpressionFor(name: string, c: FilterCondition, values: Option<seq<string>>): (e: FilterExpression)
    requires c != Falsy
    ensures e.filterOperator == FilterAnd && |e.conditions| == 1
    ensures e.conditions[0].attributeName == name
    ensures e.conditions[0].conditionOperator == ConditionOperator(c)
    ensures e.conditions[0].value == FilterValueOf(values)
    ensures ValuesOf(e.conditions[0].value) == if values.Some? then values.value else []
  {
    FilterValueRoundTrip(values);
    FilterExpression(FilterAnd, [ConditionExpression(name, ConditionOperator(c), FilterValueOf(values))])
  }

  /** The boolean the grid view's filter menu item passes, read as `onFilter`'s condition. */
  function ConditionFromGrid(filtered: bool): (c: FilterCondition)
    ensures c != Falsy <==> filtered
    ensures c != Contains && c != Equals
    ensures filtered ==> ConditionOperator(c) == OperatorEqual
  {
    if filtered then OtherTruthy else Falsy
  }

  /**
   * The grid view's filter item on an unfiltered column reaches the default
   * branch: an "equals" condition (operator 0) on the column with the empty
   * value list. On a filtered column it takes the clear-filter path.
   */
  lemma FilterMenuItemRequest(d: GridColumns.ColumnDescriptor)
    ensures var cb := GridColumns.MenuClick(d, GridColumns.FilterItem);
      var c := ConditionFromGrid(cb.filtered);
      && (!d.isFiltered ==>
            && c == OtherTruthy
            && FilterExpressionFor(cb.name, c, None) ==
                 FilterExpression(FilterAnd, [ConditionExpression(d.key, OperatorEqual, Many([]))]))
      && (d.isFiltered ==> c == Falsy)
  {
  }

  /** What `updateView` reads from the context it is given. */
  datatype UpdateContext = UpdateContext(
    updatedProperties: seq<string>,
    loading: bool,
    hasPreviousPage: bool,
    records: map<string, EntityRecord>,
    sortedRecordIds: seq<string>)

  /** The record map and id list of one dataset delivery. */
  datatype Snapshot = Snapshot(records: map<string, EntityRecord>, sortedRecordIds: seq<string>)

  /** The host dataset's sort list, which `onSort` edits in place. */
  class HostDataset {
    var sorting: seq<SortStatus>

    constructor (sorting: seq<SortStatus>)
      ensures this.sorting == sorting
    {
      this.sorting := sorting;
    }

    /** `sorting.pop()`. */
    method Pop() returns (last: SortStatus)
      requires |sorting| > 0
      modifies this`sorting
      ensures last == old(sorting)[|old(sorting)| - 1]
      ensures sorting == old(sorting)[..|old(sorting)| - 1]
    {
      last := sorting[|sorting| - 1];
      sorting := sorting[..|sorting| - 1];
    }
  }

  class CanvasGrid {
    /** The host dataset the control was initialised with. */
    const dataset: HostDataset
    /** Whether the control runs in the test harness, probed once at initialisation. */
    const isTestHarness: bool

    var currentPage: int
    var isFullScreen: bool
    /** `None` until the first snapshot is taken (`this.records` is undefined). */
    var records: Option<map<string, EntityRecord>>
    var sortedRecordsIds: seq<string>
    /** `None` until the first `updateView` (`undefined`). */
    var filteredRecordCount: Option<int>
    var defaultPageSize: int
    /** Number of `notifyOutputChanged` calls made. */
    var notifyCount: nat
    /** Host calls issued, oldest first. */
    var requests: seq<HostRequest>
    /** Every dataset delivered to `updateView`, oldest first. */
    ghost var delivered: seq<Snapshot>

    /**
     * The record map and the id list always come from one and the same
     * dataset delivery, never one from an older delivery than the other.
     */
    ghost predicate Valid()
      reads this`records, this`sortedRecordsIds, this`delivered
    {
      && (records.None? ==> sortedRecordsIds == [])
      && (records.Some? ==> Snapshot(records.value, sortedRecordsIds) in delivered)
    }

    /** The field initialisers, then `init`. */
    constructor (dataset: HostDataset, isTestHarness: bool)
      ensures Valid()
      ensures this.dataset == dataset && this.isTestHarness == isTestHarness
      ensures currentPage == 1 && !isFullScreen && defaultPageSize == 1
      ensures records.None? && sortedRecordsIds == [] && filteredRecordCount.None?
      ensures notifyCount == 0 && requests == [] && delivered == []
    {
      this.dataset := dataset;
      this.isTestHarness := isTestHarness;
      currentPage := 1;
      isFullScreen := false;
      records := None;
      sortedRecordsIds := [];
      filteredRecordCount := None;
      defaultPageSize := 1;
      notifyCount := 0;
      requests := [];
      delivered := [];
    }

    /**
     * `onSort`: empty the host's sort list in place, install the one entry
     * for this column and direction, and refresh.
     */
    method OnSort(name: string, desc: bool)
      requires Valid()
      modifies this`requests, dataset`sorting
      ensures Valid()
      ensures dataset.sorting == [SortStatus(name, if desc then SortDescending else SortAscending)]
      ensures requests == old(requests) + [Refresh]
    {
      while |dataset.sorting| > 0
        invariant requests == old(requests)
        decreases |dataset.sorting|
      {
        var _ := dataset.Pop();
      }
      var entry := SortStatus(name, if desc then SortDescending else SortAscending);
      if |dataset.sorting| == 0 {
        dataset.sorting := [entry];
      } else {
        assert false;
      }
      requests := requests + [Refresh];
    }

    /**
     * `onFilter`: for a truthy condition set the single-condition expression,
     * otherwise clear the filter; refresh either way.
     */
    method OnFilter(name: string, condition: FilterCondition, values: Option<seq<string>>)
      requires Valid()
      modifies this`requests
      ensures Valid()
      ensures condition != Falsy ==>
        requests == old(requests) + [SetFilter(FilterExpressionFor(name, condition, values)), Refresh]
      ensures condition == Falsy ==> requests == old(requests) + [ClearFilter, Refresh]
    {
      if condition != Falsy {
        requests := requests + [SetFilter(FilterExpressionFor(name, condition, values))];
      } else {
        requests := requests + [ClearFilter];
      }
      requests := requests + [Refresh];
    }

    /** `loadFirstPage`. */
    method LoadFirstPage()
      requires Valid()
      modifies this`currentPage, this`requests
      ensures Valid()
      ensures currentPage == 1
      ensures requests == old(requests) + [LoadExactPage(1)]
    {
      currentPage := 1;
      requests := requests + [LoadExactPage(1)];
    }

    /** `loadNextPage`: one page on, with no upper bound, and load that page. */
    method LoadNextPage()
      requires Valid()
      modifies this`currentPage, this`requests
      ensures Valid()
      ensures currentPage == old(currentPage) + 1
      ensures requests == old(requests) + [LoadExactPage(currentPage)]
    {
      currentPage := currentPage + 1;
      requests := requests + [LoadExactPage(currentPage)];
    }

    /** `loadPreviousPage`: one page back, with no lower bound, and load that page. */
    method LoadPreviousPage()
      requires Valid()
      modifies this`currentPage, this`requests
      ensures Valid()
      ensures currentPage == old(currentPage) - 1
      ensures requests == old(requests) + [LoadExactPage(currentPage)]
    {
      currentPage := currentPage - 1;
      requests := requests + [LoadExactPage(currentPage)];
    }

    /** `laodLastPage`: the page becomes the default page size; nothing is requested of the host. */
    method LoadLastPage()
      requires Valid()
      modifies this`currentPage
      ensures Valid()
      ensures currentPage == defaultPageSize
    {
      currentPage := defaultPageSize;
    }

    /** `onFullScreen`: ask the host for full screen, set the flag, notify once, refresh. */
    method OnFullScreen()
      requires Valid()
      modifies this`isFullScreen, this`notifyCount, this`requests
      ensures Valid()
      ensures isFullScreen
      ensures notifyCount == old(notifyCount) + 1
      ensures requests == old(requests) + [SetFullScreen(true), Refresh]
    {
      requests := requests + [SetFullScreen(true)];
      isFullScreen := true;
      notifyCount := notifyCount + 1;
      requests := requests + [Refresh];
    }

    /** `onPageSizeChange`: store the size, pass it to the host, then refresh. */
    method OnPageSizeChange(newPageSize: int)
      requires Valid()
      modifies this`defaultPageSize, this`requests
      ensures Valid()
      ensures defaultPageSize == newPageSize
      ensures requests == old(requests) + [SetPageSize(newPageSize), Refresh]
    {
      defaultPageSize := newPageSize;
      requests := requests + [SetPageSize(newPageSize), Refresh];
    }

    /**
     * `updateView`: reset the page to 1 on a fresh first page of a changed
     * dataset, follow the host's full-screen signals, take a new snapshot of
     * records and ids when needed, and report the id count as the output,
     * notifying the host only when that count changed.
     */
    method UpdateView(context: UpdateContext)
      requires Valid()
      modifies this`currentPage, this`isFullScreen, this`records, this`sortedRecordsIds,
               this`filteredRecordCount, this`notifyCount, this`delivered
      ensures Valid()
      ensures delivered == old(delivered) + [Snapshot(context.records, context.sortedRecordIds)]
      ensures var datasetChanged := "dataset" in context.updatedProperties;
        var resetPaging := datasetChanged && !context.loading && !context.hasPreviousPage && old(currentPage) != 1;
        && currentPage == (if resetPaging then 1 else old(currentPage))
        && (if resetPaging || datasetChanged || isTestHarness || old(records).None?
            then records == Some(context.records) && sortedRecordsIds == context.sortedRecordIds
            else records == old(records) && sortedRecordsIds == old(sortedRecordsIds))
      ensures isFullScreen ==
        if "fullscreen_open" in context.updatedProperties then true
        else if "fullscreen_close" in context.updatedProperties then false
        else old(isFullScreen)
      ensures filteredRecordCount == Some(|sortedRecordsIds|)
      ensures notifyCount == old(notifyCount) + if old(filteredRecordCount) == Some(|sortedRecordsIds|) then 0 else 1
    {
      var datasetChanged := "dataset" in context.updatedProperties;
      var resetPaging := datasetChanged && !context.loading && !context.hasPreviousPage && currentPage != 1;
      delivered := delivered + [Snapshot(context.records, context.sortedRecordIds)];

      if "fullscreen_close" in context.updatedProperties {
        isFullScreen := false;
      }
      if "fullscreen_open" in context.updatedProperties {
        isFullScreen := true;
      }

      if resetPaging {
        currentPage := 1;
      }

      if resetPaging || datasetChanged || isTestHarness || records.None? {
        records := Some(context.records);
        sortedRecordsIds := context.sortedRecordIds;
      }

      if filteredRecordCount != Some(|sortedRecordsIds|) {
        filteredRecordCount := Some(|sortedRecordsIds|);
        notifyCount := notifyCount + 1;
      }
    }

    /** `getOutputs`: the `FilteredRecordCount` output. */
    method GetOutputs() returns (filteredRecordCountOutput: Option<int>)
      ensures filteredRecordCountOutput == filteredRecordCount
    {
      filteredRecordCountOutput := filteredRecordCount;
    }
  }

  /**
   * A client of the control: the first `updateView` always notifies, since
   * the output starts undefined, even for an empty dataset; the same count
   * again does not notify; a changed dataset on its first page takes the page
   * back to 1.
   */
  method UpdateViewScenario(r: map<string, EntityRecord>)
  {
    var host := new HostDataset([SortStatus("name", SortAscending), SortStatus("city", SortDescending)]);
    var grid := new CanvasGrid(host, false);
    grid.UpdateView(UpdateContext([], true, false, map[], []));
    assert grid.notifyCount == 1 && grid.filteredRecordCount == Some(0);
    grid.UpdateView(UpdateContext(["fullscreen_open"], false, false, map[], []));
    assert grid.notifyCount == 1 && grid.isFullScreen;
    var out := grid.GetOutputs();
    assert out == Some(0);

    grid.OnSort("city", true);
    assert host.sorting == [SortStatus("city", SortDescending)];
    grid.LoadNextPage();
    grid.LoadNextPage();
    assert grid.currentPage == 3 && grid.requests == [Refresh, LoadExactPage(2), LoadExactPage(3)];

    grid.UpdateView(UpdateContext(["dataset"], false, false, r, ["a", "b"]));
    assert grid.currentPage == 1 && grid.sortedRecordsIds == ["a", "b"];
    assert grid.notifyCount == 2;
    out := grid.GetOutputs();
    assert out == Some(2);
  }
}
