# CanvasGrid: a verified model of the grid control's paging, column model and host adapter

CanvasGrid is a data-grid control for a low-code application platform. The
platform hands the control a dataset (a record map, a sorted id list, column
metadata, the sort list and the current filter) and drives it through
`updateView` and `getOutputs`. The control renders a grid view with
client-side paging, per-column sort and filter menus and row highlighting,
and it translates the user's actions into calls on the host dataset.

This project models the two sequential cores of that control in Dafny and
proves their properties:

- **The grid view's paging and column model** (`CanvasGrid/Grid.tsx`), as
  pure functions. The view's React state cells `currentPage` and `pageSize`
  are one `Pager` record. Each footer handler and the page-clamp effect is a
  function from the old record to the new one, as React's `setState`
  replaces the value. `Array.prototype.slice` is modelled with JavaScript's
  rules: a negative start counts from the end, and both indices are clamped
  to the length. `Array.prototype.find` returns the first match, and the
  stable `sort` by `order` is an insertion sort.
- **The host adapter** (`CanvasGrid/index.ts`), as the class
  `CanvasGrid.CanvasGrid`. Its fields are those of the TypeScript class. The
  host's sort list is a separate object (`HostDataset`) that `OnSort` pops in
  place. Every other call into the host is appended to a `requests` log.
  `notifyOutputChanged` is a counter. A ghost history of delivered datasets
  lets the object invariant `Valid()` state that the record map and the id
  list always come from the same delivery. Every state-changing method of the class
  requires and keeps it.

Modules: `DataSetApi` (the host's value types), `GridPaging`, `GridColumns`
(both from `Grid.tsx`) and `CanvasGrid` (from `index.ts`).

Page sizes come only from the dropdown's 10, 25, 50 and 100.

Observations on the code as written, modelled as they are:
- When there are no items, the clamp effect sets the page to 0, not to 1.
  See "Findings".
- The grid view passes a boolean to `onFilter`, not "contains"/"equals".
  `FilterCondition` therefore has `OtherTruthy` and `Falsy` cases besides
  `Contains` and `Equals`.
- `laodLastPage` sets the page to `defaultPageSize` (initially 1) and asks
  nothing of the host.
- `loadPreviousPage` and `loadNextPage` have no bounds.
- The grid view ignores the `currentPage` and `defaultPageSize` props. It
  keeps its own paging state.
- The grid view never calls `onPageSizeChange` or the host paging loaders.

## Model

| member | source | states |
|---|---|---|
| `GridPaging.Items` | CanvasGrid/Grid.tsx:213-222 | the item list has one entry per sorted id, in order; entry i is the record stored under id i, or none when the map lacks that id |
| `GridPaging.ItemsOfConsistentSnapshot` | CanvasGrid/Grid.tsx:216-219 | when every id is a key of the record map, every item is that id's record |
| `GridPaging.TotalPages` | CanvasGrid/Grid.tsx:224 | the page count is ceil(n / pageSize): zero exactly for no items, else the least count with (pages-1)*size < n <= pages*size |
| `GridPaging.SliceIndex` | CanvasGrid/Grid.tsx:233 | a slice index within [0, n] is kept; a negative one counts back from the end; one before the start gives 0 and one past the end gives n |
| `GridPaging.Slice` | CanvasGrid/Grid.tsx:233 | `slice` never yields more than the list; with 0 <= start <= end it is the run items[min(start, n) .. min(end, n)]; with 0 <= end <= start it is empty |
| `GridPaging.PageWindow` | CanvasGrid/Grid.tsx:232-234 | for page >= 1 the window is the contiguous run items[min((p-1)*s, n) .. min(p*s, n)] |
| `GridPaging.PrefixThenWindow` | CanvasGrid/Grid.tsx:232-234 | the first min((k-1)*s, n) items followed by page k are the first min(k*s, n) items |
| `GridPaging.WindowAtMostPageSize` | CanvasGrid/Grid.tsx:232-234 | for any page, including 0 and negative ones under slice's negative-index rule, the window has at most pageSize rows |
| `GridPaging.WindowOfPageZero` | CanvasGrid/Grid.tsx:232-234 | page 0 gives slice(-pageSize, 0), which is empty whatever the items |
| `GridPaging.WindowOfExistingPage` | CanvasGrid/Grid.tsx:232-234 | for 1 <= p <= totalPages, (p-1)*s < n and the window is items[(p-1)*s .. min(p*s, n)]; it is non-empty, at most s rows, and starts at item (p-1)*s |
| `GridPaging.WindowPastLastPage` | CanvasGrid/Grid.tsx:232-234 | a page past the last one shows no rows |
| `GridPaging.PagesUpToIsPrefix` | CanvasGrid/Grid.tsx:232-234 | pages 1..k read in order are exactly the first min(k*s, n) items |
| `GridPaging.PagesCoverItems` | CanvasGrid/Grid.tsx:224-234 | pages 1..totalPages read in order are exactly the item list: no row is lost or repeated |
| `GridPaging.Clamp` | CanvasGrid/Grid.tsx:226-230 | the effect sets the page to min(page, totalPages) and keeps the size; a page already <= totalPages is unchanged |
| `GridPaging.ClampFromPositivePage` | CanvasGrid/Grid.tsx:226-230 | from a page >= 1 the clamp lands on an existing page when there are items, and on page 0 when there are none |
| `GridPaging.ClampExample` | CanvasGrid/Grid.tsx:224-230 | 12 items at size 10 make 2 pages, and page 3 is clamped to page 2 |
| `GridPaging.ClampLeavesPageZero` | CanvasGrid/Grid.tsx:226-230 | as written, an empty list drives the initial page to 0; the clamp leaves it at 0 when items arrive, with an empty window |
| `GridPaging.ClampToRange` | CanvasGrid/Grid.tsx:226-230 | intended clamp: the page ends in [1, max(1, totalPages)], and a page already in range is unchanged |
| `GridPaging.ClampToRangeShowsRows` | CanvasGrid/Grid.tsx:226-234 | with the intended clamp, a non-empty list always shows at least one row |
| `GridPaging.FirstPage` | CanvasGrid/Grid.tsx:331 | "First" goes to page 1 and keeps the size |
| `GridPaging.PreviousPage` | CanvasGrid/Grid.tsx:336 | "Previous" goes to max(1, p-1): one page back, never below 1 |
| `GridPaging.NextPage` | CanvasGrid/Grid.tsx:344 | "Next" goes to min(totalPages, p+1): one page on, never past totalPages |
| `GridPaging.LastPage` | CanvasGrid/Grid.tsx:349 | "Last" goes to totalPages |
| `GridPaging.ChangePageSize` | CanvasGrid/Grid.tsx:322-325 | a dropdown size is stored and the page is reset to 1; the pager stays valid |
| `GridPaging.PageSizeChangeShowsFirstRows` | CanvasGrid/Grid.tsx:322-325 | after a size change the window is the first `size` items |
| `GridPaging.NavigationStaysOnExistingPages` | CanvasGrid/Grid.tsx:328-351 | from an existing page, all four buttons lead to an existing page |
| `GridPaging.BackButtonsDisabled` | CanvasGrid/Grid.tsx:328-337 | First and Previous are disabled (p = 1) exactly when pressing either would leave the pager unchanged, on any page |
| `GridPaging.ForwardButtonsDisabled` | CanvasGrid/Grid.tsx:342-350 | Next and Last are disabled (p = totalPages) exactly when pressing either would leave the pager unchanged, on any page |
| `GridPaging.PageZeroRecovery` | CanvasGrid/Grid.tsx:322-350 | on page 0 with items, at any dropdown size, all four footer buttons are enabled; First, Previous and Next reach page 1 and Last reaches the last page, all existing pages; a page-size change followed by the clamp reaches page 1 |
| `GridPaging.TransitionsKeepPagerValid` | CanvasGrid/Grid.tsx:123-124 | the initial pager (page 1, size 10) is valid; every handler and the clamp keep the size in {10, 25, 50, 100} and the page >= 0 |
| `GridColumns.Find` | CanvasGrid/Grid.tsx:246-247 | `find` returns an element iff one matches, and then it is the first match |
| `GridColumns.ShownColumns` | CanvasGrid/Grid.tsx:243 | exactly the columns with !isHidden and order >= 0 remain, each as often as in the input |
| `GridColumns.ShownColumnsKeepsOrder` | CanvasGrid/Grid.tsx:243 | `filter` keeps the host order: filtering a concatenation joins the filtered parts, and a single column is kept exactly when shown |
| `GridColumns.InsertByOrder` | CanvasGrid/Grid.tsx:244 | inserting into a list sorted by order keeps it sorted and adds exactly that column |
| `GridColumns.SortByOrder` | CanvasGrid/Grid.tsx:244 | the result is in non-decreasing order and is a permutation of the input; its stability is `SortByOrderIsStable` |
| `GridColumns.InsertByOrderOfOrder` | CanvasGrid/Grid.tsx:244 | an inserted column goes first among the columns of its own order; the relative order of all others is unchanged |
| `GridColumns.SortByOrderIsStable` | CanvasGrid/Grid.tsx:244 | the sort is stable: for every order value, the columns of that order keep their input sequence |
| `GridColumns.DescribeAll` | CanvasGrid/Grid.tsx:245-260 | one descriptor per column, in the same order |
| `GridColumns.Describe` | CanvasGrid/Grid.tsx:248-259 | a descriptor is keyed (key, fieldName) by the column name, labelled by its display name and resizable; sorted iff some sort entry names the column, and descending only if sorted; filtered iff some condition of the filter names the column |
| `GridColumns.GridColumns` | CanvasGrid/Grid.tsx:241-261 | one descriptor per shown column, in non-decreasing order, each the description of its own column |
| `GridColumns.GridColumnsAreShownColumns` | CanvasGrid/Grid.tsx:241-261 | the descriptors carry exactly the shown host columns, with their multiplicities |
| `GridColumns.GridColumnsKeepHostOrder` | CanvasGrid/Grid.tsx:241-261 | columns of equal order appear among the grid's columns in their host order |
| `GridColumns.GridColumnsShownAndLabelled` | CanvasGrid/Grid.tsx:241-261 | each descriptor is of a shown column; key = fieldName = column name; name = display name; resizable |
| `GridColumns.DescriptorAnnotations` | CanvasGrid/Grid.tsx:246-255 | a column is sorted descending iff the first sort entry naming it has direction 1; later entries for it are ignored |
| `GridColumns.MenuFor` | CanvasGrid/Grid.tsx:132-164 | at most one sort item is checked; one is checked exactly when the column is sorted; the sort items carry `disable: disableSorting`; the filter item is checked iff the column is filtered |
| `GridColumns.MenuChecksFollowSorting` | CanvasGrid/Grid.tsx:138-164 | "A to Z" is checked iff the first sort entry is not descending; "Z to A" iff it is descending; never both; the filter item is checked iff the column is filtered; the sort items carry `disable: disableSorting` |
| `GridColumns.MenuClick` | CanvasGrid/Grid.tsx:140-179 | the sort items call onSort(key, false/true); the filter item calls onFilter(key, !isFiltered); hide calls onHideColumn(key) |
| `GridColumns.RenderRow` | CanvasGrid/Grid.tsx:270-283 | no row without an item; a row gets the highlight colour iff colour and value are both non-empty and the record's HighlightIndicator equals the value |
| `GridColumns.NoHighlightWithoutConfiguration` | CanvasGrid/Grid.tsx:276 | a null indicator, or an unset colour or value, gives no highlight |
| `CanvasGrid.ConditionOperator` | CanvasGrid/index.ts:60-70 | the operator is 8 exactly for "contains", and 0 for "equals" and any other truthy condition |
| `CanvasGrid.FilterValueOf` | CanvasGrid/index.ts:77 | the value is the lone string iff exactly one value is given, otherwise the list, or [] when no list is given |
| `CanvasGrid.FilterValueRoundTrip` | CanvasGrid/index.ts:77 | the encoded value stands for exactly the given values; no list stands for none |
| `CanvasGrid.FilterExpressionFor` | CanvasGrid/index.ts:71-80 | the expression is And (0) of one condition on the column, with the condition's operator and the value `FilterValueOf` encodes (the lone string for exactly one value, otherwise the list, or [] for none), which stands for exactly the given values |
| `CanvasGrid.ConditionFromGrid` | CanvasGrid/Grid.tsx:166 | the grid's boolean is a truthy condition iff it is true; it is never "contains" or "equals", so a true value always maps to operator 0 |
| `CanvasGrid.FilterMenuItemRequest` | CanvasGrid/Grid.tsx:164-166 | the filter item on an unfiltered column passes `true`, which reaches the default branch: operator 0 with value []; on a filtered column it clears the filter |
| `CanvasGrid.HostDataset.Pop` | CanvasGrid/index.ts:40 | removes and returns the last sort entry |
| `CanvasGrid.CanvasGrid.constructor` | CanvasGrid/index.ts:15-23 | page 1, not full screen, default page size 1, no records, no ids, undefined output, nothing notified or requested |
| `CanvasGrid.CanvasGrid.OnSort` | CanvasGrid/index.ts:36-55 | whatever the sort list held, it then holds exactly one entry (name, desc ? 1 : 0); exactly one refresh is requested |
| `CanvasGrid.CanvasGrid.OnFilter` | CanvasGrid/index.ts:57-85 | a truthy condition sets the single-condition expression; a falsy one clears the filter; then one refresh is requested |
| `CanvasGrid.CanvasGrid.LoadFirstPage` | CanvasGrid/index.ts:87-90 | the page becomes 1 and page 1 is loaded |
| `CanvasGrid.CanvasGrid.LoadNextPage` | CanvasGrid/index.ts:92-95 | the page grows by exactly 1, with no bound, and that page is loaded |
| `CanvasGrid.CanvasGrid.LoadPreviousPage` | CanvasGrid/index.ts:97-100 | the page shrinks by exactly 1, with no bound, and that page is loaded |
| `CanvasGrid.CanvasGrid.LoadLastPage` | CanvasGrid/index.ts:102-106 | the page becomes defaultPageSize and no host call is made |
| `CanvasGrid.CanvasGrid.OnFullScreen` | CanvasGrid/index.ts:108-114 | full screen is requested, the flag is set, one notification, then a refresh |
| `CanvasGrid.CanvasGrid.OnPageSizeChange` | CanvasGrid/index.ts:136-141 | the size is stored and passed to the host, then a refresh |
| `CanvasGrid.CanvasGrid.UpdateView` | CanvasGrid/index.ts:170-197 | the page resets to 1 iff the dataset changed, is not loading, has no previous page and the page is not 1; fullscreen_open wins over fullscreen_close; records and ids are replaced together (on reset, dataset change, test harness or no prior records) or neither is; the output becomes the id count; one notification iff that count changed; the snapshot invariant is kept |
| `CanvasGrid.CanvasGrid.GetOutputs` | CanvasGrid/index.ts:236-240 | FilteredRecordCount is the stored output count |

## Left out

- Rendering is not modelled. This covers `DetailsList`, `Sticky`, the menu's positioning, `Overlay`, `Dropdown`, the buttons, styles and the `render` props that `updateView` builds. These are presentation over a widget library that is not part of this model.
- The `isComponentLoading` flag and the `contextualMenuProps` state are not modelled, and neither is `useMemo`/`useCallback` memoisation. This is React scheduling. The clamp is taken to run after every change to the items or the page size.
- The `Selection` object, `setSelectedRecords` and `onNavigate` are not modelled. They depend on the widget library's index-to-id mapping.
- `onHideColumn` and `onResetColumns` are not modelled. They only notify or refresh and hold no local logic.
- `init` is reduced to the constructor's inputs. The test-harness probe of the DOM becomes a boolean. `createRoot`, `trackContainerResize`, resources, `initializeIcons` and `destroy` are left out.
- The `parseInt` of the allocated width and height and all `console.log` calls are left out.
- The exact interleaving of `notifyOutputChanged` calls with host requests is not modelled. Notifications are counted separately from the request log.
- `GridColumns.MenuFor`: the sort items set a property named `disable`, but the menu library reads `disabled`. Whether the items are actually greyed out is not modelled; only the property's value is.
- `Column.order` is taken as an integer. The host's `order` is a JavaScript number, and fractional orders, which the comparator `a.order - b.order` also handles, are not modelled.
- `GridColumns.RenderRow`: the indicator is modelled as a string or null. JavaScript's `==` coercion between other types (a number against a string) is not modelled.
- `CanvasGrid.CanvasGrid.OnSort`: the host sort list is always present. The `!sorting` path of a missing list is not modelled, and after the loop the push branch cannot be taken.
- `GridPaging.TotalPages`: `Math.ceil` of a floating-point quotient is modelled as exact integer ceiling division. This is exact for the sizes involved.

## Findings

| source | as written | input that shows it | evidently intended | confidence | as-written member | corrected member |
|---|---|---|---|---|---|---|
| CanvasGrid/Grid.tsx:226-230 | the clamp effect only lowers the page (`if currentPage > totalPages`). An empty item list therefore sets the page to 0, and the clamp effect never raises it again: the grid shows no rows under "Page 0 of 2" until the user presses any footer button or changes the page size. | The view first renders with 0 items: totalPages = 0 and the page becomes 0. Then 12 items arrive at size 10: totalPages = 2, but 0 > 2 is false, so the page stays 0. The window `slice(-10, 0)` is empty and the footer reads "Page 0 of 2". | keep the page within [1, max(1, totalPages)], so that a non-empty list always shows rows | medium, not executed | `GridPaging.ClampLeavesPageZero` | `GridPaging.ClampToRange` (with `GridPaging.ClampToRangeShowsRows`) |

The pager transitions elsewhere in the model keep the clamp as written, so
that they match the code. The corrected clamp and its property are proved
beside it.
