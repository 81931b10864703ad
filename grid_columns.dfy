/**
 * The grid view's column model and row styling: the host columns projected
 * into column descriptors (shown columns only, ordered, annotated with their
 * sort and filter state), the per-column context menu's check marks and
 * click callbacks, and the row-highlight rule.
 */
module GridColumns {
  import opened DataSetApi

  // ---------------------------------------------------------------------------
  // Array.prototype.find

  /** `xs.find(matches)`: the first element that matches, if any. */
  function Find<T>(xs: seq<T>, matches: T -> bool): (r: Option<T>)
    ensures r.Some? <==> exists i :: 0 <= i < |xs| && matches(xs[i])
    ensures r.Some? ==> exists i :: 0 <= i < |xs| && xs[i] == r.value && matches(xs[i]) &&
                                    forall j :: 0 <= j < i ==> !matches(xs[j])
  {
    if xs == [] then None
    else if matches(xs[0]) then Some(xs[0])
    else
      var r := Find(xs[1..], matches);
      assert forall i :: 0 < i < |xs| ==> xs[i] == xs[1..][i - 1];
      r
  }

  // ---------------------------------------------------------------------------
  // Shown columns

  /** The filter `!col.isHidden && col.order >= 0`. */
  predicate IsShown(c: Column)
  {
    !c.isHidden && c.order >= 0
  }

  /** The shown columns, in their host order, each as often as the host lists it. */
  function ShownColumns(columns: seq<Column>): (r: seq<Column>)
    ensures |r| <= |columns|
    ensures forall c :: c in r ==> IsShown(c)
    ensures forall c :: multiset(r)[c] == if IsShown(c) then multiset(columns)[c] else 0
  {
    if columns == [] then []
    else
      assert columns == [columns[0]] + columns[1..];
      (if IsShown(columns[0]) then [columns[0]] else []) + ShownColumns(columns[1..])
  }

  /**
   * The filter keeps the host order: filtering a concatenation filters each
   * part and joins them, and a single column is kept exactly when shown.
   */
  lemma ShownColumnsOfCons(x: Column, t: seq<Column>)
    ensures ShownColumns([x] + t) == (if IsShown(x) then [x] else []) + ShownColumns(t)
  {
    assert ([x] + t)[0] == x && ([x] + t)[1..] == t;
  }

  lemma ConcatAssociative<T>(x: seq<T>, y: seq<T>, z: seq<T>)
    ensures x + (y + z) == (x + y) + z
  {
  }

  lemma {:induction false} ShownColumnsKeepsOrder(a: seq<Column>, b: seq<Column>)
    ensures ShownColumns(a + b) == ShownColumns(a) + ShownColumns(b)
    ensures |a| == 1 ==> ShownColumns(a) == if IsShown(a[0]) then a else []
  {
    if a == [] {
      assert a + b == b;
    } else {
      var head := if IsShown(a[0]) then [a[0]] else [];
      assert a + b == [a[0]] + (a[1..] + b);
      assert a == [a[0]] + a[1..];
      ShownColumnsOfCons(a[0], a[1..] + b);
      ShownColumnsOfCons(a[0], a[1..]);
      ShownColumnsKeepsOrder(a[1..], b);
      var rest, later := ShownColumns(a[1..]), ShownColumns(b);
      assert ShownColumns(a + b) == head + (rest + later);
      ConcatAssociative(head, rest, later);
      if |a| == 1 {
        assert a[1..] == [];
      }
    }
  }

  // ---------------------------------------------------------------------------
  // Stable sort by order

  predicate SortedByOrder(cs: seq<Column>)
  {
    forall i, j :: 0 <= i < j < |cs| ==> cs[i].order <= cs[j].order
  }

  /** A column no later than every column of a sorted list can lead it. */
  lemma SortedCons(x: Column, rest: seq<Column>)
    requires SortedByOrder(rest)
    requires forall k :: 0 <= k < |rest| ==> x.order <= rest[k].order
    ensures SortedByOrder([x] + rest)
  {
    var r := [x] + rest;
    forall i, j | 0 <= i < j < |r| ensures r[i].order <= r[j].order {
      assert r[j] == rest[j - 1];
      if i > 0 {
        assert r[i] == rest[i - 1];
      }
    }
  }

  /** Insert `c` before the first column whose order is not below its own. */
  function InsertByOrder(c: Column, sorted: seq<Column>): (r: seq<Column>)
    requires SortedByOrder(sorted)
    ensures SortedByOrder(r)
    ensures multiset(r) == multiset(sorted) + multiset{c}
  {
    if sorted == [] || c.order <= sorted[0].order then [c] + sorted
    else
      var rest := InsertByOrder(c, sorted[1..]);
      assert sorted == [sorted[0]] + sorted[1..];
      forall k | 0 <= k < |rest| ensures sorted[0].order <= rest[k].order {
        assert rest[k] in multiset(sorted[1..]) + multiset{c};
        if rest[k] != c {
          var m :| 0 <= m < |sorted[1..]| && sorted[1..][m] == rest[k];
          assert sorted[m + 1] == rest[k];
        }
      }
      SortedCons(sorted[0], rest);
      [sorted[0]] + rest
  }

  /**
   * `columns.sort((a, b) => a.order - b.order)`: JavaScript's sort is stable,
   * and so is this insertion sort (a column is placed before later ones of
   * equal order).
   */
  function SortByOrder(columns: seq<Column>): (r: seq<Column>)
    ensures SortedByOrder(r)
    ensures multiset(r) == multiset(columns)
  {
    if columns == [] then []
    else
      assert columns == [columns[0]] + columns[1..];
      InsertByOrder(columns[0], SortByOrder(columns[1..]))
  }

  /** The columns of order `k`, in the order they appear in `cs`. */
  function OfOrder(cs: seq<Column>, k: int): seq<Column>
  {
    if cs == [] then []
    else (if cs[0].order == k then [cs[0]] else []) + OfOrder(cs[1..], k)
  }

  /**
   * Inserting `c` puts it first among the columns of its own order and
   * changes the relative order of no other column.
   */
  lemma OfOrderOfCons(x: Column, t: seq<Column>, k: int)
    ensures OfOrder([x] + t, k) == (if x.order == k then [x] else []) + OfOrder(t, k)
  {
    assert ([x] + t)[0] == x && ([x] + t)[1..] == t;
  }

  lemma {:induction false} InsertByOrderOfOrder(c: Column, sorted: seq<Column>, k: int)
    requires SortedByOrder(sorted)
    ensures OfOrder(InsertByOrder(c, sorted), k) == (if c.order == k then [c] else []) + OfOrder(sorted, k)
  {
    if sorted == [] || c.order <= sorted[0].order {
      OfOrderOfCons(c, sorted, k);
    } else {
      var rest := InsertByOrder(c, sorted[1..]);
      InsertByOrderOfOrder(c, sorted[1..], k);
      OfOrderOfCons(sorted[0], rest, k);
      assert sorted == [sorted[0]] + sorted[1..];
      OfOrderOfCons(sorted[0], sorted[1..], k);
    }
  }

  /**
   * The sort is stable: the columns of each order keep the relative order
   * they had in the input.
   */
  lemma {:induction false} SortByOrderIsStable(columns: seq<Column>, k: int)
    ensures OfOrder(SortByOrder(columns), k) == OfOrder(columns, k)
  {
    if columns != [] {
      SortByOrderIsStable(columns[1..], k);
      InsertByOrderOfOrder(columns[0], SortByOrder(columns[1..]), k);
    }
  }

  // ---------------------------------------------------------------------------
  // Column descriptors

  /** The render-time descriptor of one column. */
  datatype ColumnDescriptor = ColumnDescriptor(
    key: string,
    name: string,
    fieldName: string,
    isSorted: bool,
    isSortedDescending: bool,
    isResizable: bool,
    isFiltered: bool,
    data: Column)

  /** The first sort entry for column `name`. */
  function SortEntryFor(sorting: seq<SortStatus>, name: string): Option<SortStatus>
  {
    Find(sorting, (s: SortStatus) => s.name == name)
  }

  /** The first condition of the current filter on column `name`. */
  function ConditionFor(filtering: Option<FilterExpression>, name: string): Option<ConditionExpression>
  {
    if filtering.None? then None
    else Find(filtering.value.conditions, (f: ConditionExpression) => f.attributeName == name)
  }

  /**
   * The descriptor built for one shown column: keyed and labelled by the
   * column, resizable, sorted iff some sort entry names the column (and
   * descending only if sorted), filtered iff some condition of the current
   * filter names the column.
   */
  function Describe(col: Column, sorting: seq<SortStatus>, filtering: Option<FilterExpression>): (d: ColumnDescriptor)
    ensures d.data == col && d.key == col.name && d.fieldName == col.name
    ensures d.name == col.displayName && d.isResizable
    ensures d.isSorted <==> exists k :: 0 <= k < |sorting| && sorting[k].name == col.name
    ensures d.isSortedDescending ==> d.isSorted
    ensures d.isFiltered <==>
      filtering.Some? &&
      exists k :: 0 <= k < |filtering.value.conditions| && filtering.value.conditions[k].attributeName == col.name
  {
    var sortOn := SortEntryFor(sorting, col.name);
    ColumnDescriptor(
      key := col.name,
      name := col.displayName,
      fieldName := col.name,
      isSorted := sortOn.Some?,
      isSortedDescending := sortOn.Some? && sortOn.value.sortDirection == SortDescending,
      isResizable := true,
      isFiltered := ConditionFor(filtering, col.name).Some?,
      data := col)
  }

  function DescribeAll(cols: seq<Column>, sorting: seq<SortStatus>, filtering: Option<FilterExpression>): (r: seq<ColumnDescriptor>)
    ensures |r| == |cols|
    ensures forall i :: 0 <= i < |cols| ==> r[i] == Describe(cols[i], sorting, filtering)
  {
    if cols == [] then [] else [Describe(cols[0], sorting, filtering)] + DescribeAll(cols[1..], sorting, filtering)
  }

  /** The grid's columns: shown columns, sorted by order, each described. */
  function GridColumns(columns: seq<Column>, sorting: seq<SortStatus>, filtering: Option<FilterExpression>): (r: seq<ColumnDescriptor>)
    ensures |r| == |ShownColumns(columns)| <= |columns|
    ensures forall i, j :: 0 <= i < j < |r| ==> r[i].data.order <= r[j].data.order
    ensures forall i :: 0 <= i < |r| ==> r[i] == Describe(r[i].data, sorting, filtering)
  {
    DescribeAll(SortByOrder(ShownColumns(columns)), sorting, filtering)
  }

  /** The host columns a descriptor list carries. */
  function DataOf(ds: seq<ColumnDescriptor>): (r: seq<Column>)
    ensures |r| == |ds|
    ensures forall i :: 0 <= i < |ds| ==> r[i] == ds[i].data
  {
    if ds == [] then [] else [ds[0].data] + DataOf(ds[1..])
  }

  /** The descriptors carry the shown columns sorted by order, one descriptor per column. */
  lemma {:induction false} DataOfDescribeAll(cols: seq<Column>, sorting: seq<SortStatus>, filtering: Option<FilterExpression>)
    ensures DataOf(DescribeAll(cols, sorting, filtering)) == cols
  {
    var r := DescribeAll(cols, sorting, filtering);
    assert forall i :: 0 <= i < |cols| ==> DataOf(r)[i] == cols[i];
  }

  /** The descriptors carry exactly the shown host columns, as often as the host lists each. */
  lemma GridColumnsAreShownColumns(columns: seq<Column>, sorting: seq<SortStatus>, filtering: Option<FilterExpression>)
    ensures var cs := DataOf(GridColumns(columns, sorting, filtering));
      && (forall c :: multiset(cs)[c] == if IsShown(c) then multiset(columns)[c] else 0)
      && (forall c :: c in cs <==> c in columns && IsShown(c))
  {
    var cs := DataOf(GridColumns(columns, sorting, filtering));
    DataOfDescribeAll(SortByOrder(ShownColumns(columns)), sorting, filtering);
    assert multiset(cs) == multiset(ShownColumns(columns));
    forall c ensures c in cs <==> c in columns && IsShown(c) {
      assert c in cs <==> multiset(cs)[c] > 0;
      assert c in columns <==> multiset(columns)[c] > 0;
    }
  }

  /**
   * Columns of equal order appear among the grid's columns in their host
   * order, as `filter` and the stable `sort` leave them.
   */
  lemma GridColumnsKeepHostOrder(columns: seq<Column>, sorting: seq<SortStatus>, filtering: Option<FilterExpression>, k: int)
    ensures OfOrder(DataOf(GridColumns(columns, sorting, filtering)), k) == OfOrder(ShownColumns(columns), k)
  {
    DataOfDescribeAll(SortByOrder(ShownColumns(columns)), sorting, filtering);
    SortByOrderIsStable(ShownColumns(columns), k);
  }

  /** Each descriptor is of a shown column, keyed and labelled by it. */
  lemma GridColumnsShownAndLabelled(columns: seq<Column>, sorting: seq<SortStatus>, filtering: Option<FilterExpression>)
    ensures var r := GridColumns(columns, sorting, filtering);
      forall i :: 0 <= i < |r| ==>
            && IsShown(r[i].data)
            && r[i].key == r[i].data.name && r[i].fieldName == r[i].data.name
            && r[i].name == r[i].data.displayName && r[i].isResizable
  {
    var shown := ShownColumns(columns);
    var sorted := SortByOrder(shown);
    var r := GridColumns(columns, sorting, filtering);
    forall i | 0 <= i < |r| ensures IsShown(r[i].data) {
      assert r[i].data == sorted[i];
      assert sorted[i] in multiset(shown);
    }
  }

  /**
   * A column is sorted descending iff the first sort entry naming it has
   * direction 1; a later entry for the same column is ignored.
   */
  lemma DescriptorAnnotations(col: Column, sorting: seq<SortStatus>, filtering: Option<FilterExpression>)
    ensures Describe(col, sorting, filtering).isSortedDescending <==>
      exists k :: 0 <= k < |sorting| && sorting[k].name == col.name && sorting[k].sortDirection == SortDescending &&
                  forall j :: 0 <= j < k ==> sorting[j].name != col.name
  {
    var name := col.name;
    var sortOn := SortEntryFor(sorting, name);
    if sortOn.Some? {
      var k' :| 0 <= k' < |sorting| && sorting[k'] == sortOn.value && sorting[k'].name == name &&
                forall j :: 0 <= j < k' ==> sorting[j].name != name;
      forall k | 0 <= k < |sorting| && sorting[k].name == name && forall j :: 0 <= j < k ==> sorting[j].name != name
        ensures k == k'
      {
      }
    }
  }

  // ---------------------------------------------------------------------------
  // The column context menu

  /**
   * The check marks of one column's menu, and the value of the `disable`
   * property the two sort items carry.
   */
  datatype ColumnMenu = ColumnMenu(aToZChecked: bool, zToAChecked: bool, sortDisableProp: bool, filterChecked: bool)

  /**
   * The column's menu: at most one sort item is checked, none for an
   * unsorted column, "Z to A" exactly for a descending one.
   */
  function MenuFor(d: ColumnDescriptor): (m: ColumnMenu)
    ensures !(m.aToZChecked && m.zToAChecked)
    ensures !d.isSorted ==> !m.aToZChecked && !m.zToAChecked
    ensures m.aToZChecked || m.zToAChecked <==> d.isSorted
    ensures m.sortDisableProp == d.data.disableSorting
    ensures m.filterChecked == d.isFiltered
  {
    ColumnMenu(
      aToZChecked := d.isSorted && !d.isSortedDescending,
      zToAChecked := d.isSorted && d.isSortedDescending,
      sortDisableProp := d.data.disableSorting,
      filterChecked := d.isFiltered)
  }

  /**
   * In a column's menu, "A to Z" is checked iff the column's first sort entry
   * is not descending, "Z to A" iff it is descending; so at most one is
   * checked, and neither when the column is not sorted.
   */
  lemma MenuChecksFollowSorting(col: Column, sorting: seq<SortStatus>, filtering: Option<FilterExpression>)
    ensures var m := MenuFor(Describe(col, sorting, filtering));
      var sortOn := SortEntryFor(sorting, col.name);
      && (m.aToZChecked <==> sortOn.Some? && sortOn.value.sortDirection != SortDescending)
      && (m.zToAChecked <==> sortOn.Some? && sortOn.value.sortDirection == SortDescending)
      && !(m.aToZChecked && m.zToAChecked)
      && (sortOn.None? ==> !m.aToZChecked && !m.zToAChecked)
      && (m.filterChecked <==> ConditionFor(filtering, col.name).Some?)
      && (m.sortDisableProp <==> col.disableSorting)
  {
  }

  /** The menu items of a column. */
  datatype MenuItem = SortAToZ | SortZToA | FilterItem | HideColumnItem

  /** The callback a menu item calls into the control with. */
  datatype GridCallback = OnSort(name: string, desc: bool) | OnFilter(name: string, filtered: bool) | OnHideColumn(name: string)

  /**
   * Clicking "A to Z" sorts ascending, "Z to A" descending, the filter item
   * passes `isFiltered !== true` (true for an unfiltered column), and "hide"
   * hides the column; each by the column's key.
   */
  function MenuClick(d: ColumnDescriptor, item: MenuItem): (cb: GridCallback)
    ensures cb.name == d.key
    ensures cb.OnSort? <==> item == SortAToZ || item == SortZToA
    ensures cb.OnSort? ==> (cb.desc <==> item == SortZToA)
    ensures cb.OnFilter? <==> item == FilterItem
    ensures cb.OnFilter? ==> (cb.filtered <==> !d.isFiltered)
  {
    match item
    case SortAToZ => OnSort(d.key, false)
    case SortZToA => OnSort(d.key, true)
    case FilterItem => OnFilter(d.key, !d.isFiltered)
    case HideColumnItem => OnHideColumn(d.key)
  }

  // ---------------------------------------------------------------------------
  // Row highlighting

  /** JavaScript truthiness of a nullable string: present and not empty. */
  predicate Truthy(s: Option<string>)
  {
    s.Some? && s.value != ""
  }

  /** The style a rendered row gets: a background colour, or none. */
  datatype RowStyle = RowStyle(backgroundColor: Option<string>)

  /**
   * `onRenderRow`: no row without an item; otherwise a row, with the
   * highlight colour as background iff a colour and a value are configured
   * (both non-empty) and the record's `HighlightIndicator` equals the value.
   */
  function RenderRow(item: Option<EntityRecord>, highlightColor: Option<string>, highlightValue: Option<string>): (r: Option<RowStyle>)
    ensures r.None? <==> item.None?
    ensures r.Some? ==>
      (r.value.backgroundColor.Some? <==>
        highlightColor.Some? && highlightColor.value != "" &&
        highlightValue.Some? && highlightValue.value != "" &&
        item.value.highlightIndicator == highlightValue)
    ensures r.Some? && r.value.backgroundColor.Some? ==> r.value.backgroundColor == highlightColor
  {
    if item.None? then None
    else if Truthy(highlightColor) && Truthy(highlightValue) && item.value.highlightIndicator == highlightValue then
      Some(RowStyle(highlightColor))
    else Some(RowStyle(None))
  }

  /** A record whose indicator is null is never highlighted, and nothing is highlighted while the colour or the value is unset. */
  lemma NoHighlightWithoutConfiguration(item: EntityRecord, highlightColor: Option<string>, highlightValue: Option<string>)
    requires item.highlightIndicator.None? || !Truthy(highlightColor) || !Truthy(highlightValue)
    ensures RenderRow(Some(item), highlightColor, highlightValue) == Some(RowStyle(None))
  {
  }
}
