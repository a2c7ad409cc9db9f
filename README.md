# PaginationHandler, modelled in Dafny

`PaginationHandler` is the index translator behind a scrollable menu of
ScaleformUI. A menu of `totalItems` items is shown through a window of
`itemsPerPage` slots. The handler keeps three index spaces consistent:

- the item index (`currentMenuIndex`);
- the page and the position inside it (`currentPage`, `currentPageIndex`);
- the slot of the window (`scaleformIndex`), with the window's first and last items in `minItem` and `maxItem`.

`GoUp` and `GoDown` move the cursor one item, cyclically. They report whether the window moved. How it moves depends on the scrolling type:

- `Infinite` always shifts the window by one item.
- `Classic` shifts by one item, except when the cursor wraps around the collection. Then it jumps to the cursor's page.
- `Paginated` always jumps to the cursor's page.

The model has five modules, one file each:

- `IndexMath` has the floor-division facts behind `Math.Floor(x / (float)k)`, and the cyclic one-step moves `WrapDown` and `WrapUp` with their modular reading.
- `Pagination` has `ScrollingType`, plus `PaginationState`: the eight counters and the scrolling type as one value. The page helpers of the C# class are its member functions. `StepUp` and `StepDown` give the state after one move, as pure functions. `PaginationHandler` is the class with the same fields. Its `GoUp` and `GoDown` update those fields in place, statement for statement as in the C#, and are proved to reach exactly the state `StepUp`/`StepDown` give.
- `PaginationProperties` has what the page arithmetic and the moves guarantee:
  - the page round trips;
  - item counts checked against an independent counting definition;
  - the cases of `CurrentPageEndIndex`;
  - for each move: the cursor step, when the window moves, the one-item shift, and the page jump;
  - both moves keep a consistent state (`Valid`) consistent;
  - on a collection that fits in one page the slot is the cursor (`SmallView`). Under `Infinite` scrolling, and under `Classic` on whole pages, the window is `itemsPerPage` consecutive items with the cursor `scaleformIndex` items after `minItem`, cyclically (`ShiftedView`). Both moves keep both views;
  - a move that leaves the window in place is undone by the opposite move;
  - under `Paginated` scrolling the window shows exactly the cursor's page, and the slot is the cursor's position in it (`PagedView`). `GoUp` always keeps this. `GoDown` keeps it when the collection is a whole number of pages.
- `PaginationScenarios` has concrete runs on small collections, on the pure functions and on a handler object.
- `PaginationFindings` has the two window queries that do not match the window (see Findings), and the concrete runs behind the last two deviations below.

In these places the code does something other than what a reader of the
handler would expect. The model follows the code:

- Empty collection. One would expect moves on an empty collection to do nothing. The code has no such guard: with `totalItems == 0`, `GoUp` sets the cursor to `-1`. The moves are modelled with `totalItems >= 1` required.
- `CurrentPageEndIndex`. It names the last item of the current page. When the whole collection fits in one page, the code returns `totalItems`, one past the last item (`EndIndexCases`).
- Whole pages under `Paginated` scrolling. Paginated scrolling is meant to show only whole pages, with the cursor on the page shown. When the last page is partial, a `GoDown` from the last item wraps the cursor to item 0 without moving the window. The window then still shows the last page (`PagedDownWrapStep`, `PaginatedPartialWrapScenario`).
- The window under `Classic` scrolling. One would expect the window to hold `itemsPerPage` consecutive items with the cursor at offset `scaleformIndex` from `minItem`. `Infinite` scrolling keeps this, and so does `Classic` on a collection of whole pages (`ShiftedView`). On a partial last page `Classic` loses it. Take 7 items in pages of 5, cursor at the top. `GoUp` wraps to item 6 and shows the two-item page 5..6 (`ClassicWrapUpStep`). Two more `GoUp` move the cursor to item 4 while the window stays on 5..6, so the cursor is outside the window (`ClassicCursorLeavesWindow`, `ClassicStrandedCursor`).
- Missing slots on a shifted window. One would expect `GetScaleformIndex` to return a slot in `[0, itemsPerPage)` for every item of the window. It always adds the missing slots of the cursor's page, including on a full window that was shifted one item at a time (`CyclicWindowReading`). Take 7 items in pages of 5 under `Classic`, cursor at the top. Six `GoDown` give window 2..6 with the cursor on item 6 in slot 4 (`ClassicShiftScenario`, `ClassicShiftDownStep`). `GetScaleformIndex(6)` is then 7 (`ShiftedSlotPastWindow`).
- Visibility check. One would expect a visibility check that is aware of the window wrapping. The code's `IsItemVisible` is modelled as written; the corrected check is `InWindow`.

## Model

| member | source | states |
|---|---|---|
| `Pagination.PaginationHandler.constructor` | ScaleformUI_Csharp/PaginationHandler.cs:5-14 | a new handler has every counter at 0 and Classic scrolling |
| `Pagination.PaginationState.GetPageIndexFromMenuIndex` | ScaleformUI_Csharp/PaginationHandler.cs:84-89 | the in-page position of any item lies in `[0, itemsPerPage)` |
| `PaginationProperties.PageOfIndex` | ScaleformUI_Csharp/PaginationHandler.cs:97-100 | `GetPage(m) == p` exactly when `p*itemsPerPage <= m < (p+1)*itemsPerPage`: the floor of `m / itemsPerPage`, negative items included |
| `Pagination.PaginationState.GetPage` | ScaleformUI_Csharp/PaginationHandler.cs:97-100 | computes the floor of `menuIndex / itemsPerPage`; its meaning is stated by `PageOfIndex`, `PageRoundTrip` and `SplitRoundTrip` |
| `Pagination.PaginationState.GetMenuIndexFromPageIndex` | ScaleformUI_Csharp/PaginationHandler.cs:91-95 | computes `page * itemsPerPage + index`; `PageRoundTrip` and `SplitRoundTrip` prove it inverse to `GetPage` with `GetPageIndexFromMenuIndex` |
| `PaginationProperties.PageRoundTrip` | ScaleformUI_Csharp/PaginationHandler.cs:84-100 | building an item from page `p` and position `i < itemsPerPage`, then splitting it, gives back `p` and `i` |
| `PaginationProperties.SplitRoundTrip` | ScaleformUI_Csharp/PaginationHandler.cs:84-100 | splitting an item into page and position and building it again gives back the item; items of the collection are on pages `0 ..` that start inside it |
| `Pagination.PaginationHandler.SetCurrentPageIndex` | ScaleformUI_Csharp/PaginationHandler.cs:45 | the setter stores the in-page position of its argument, not the argument, and changes no other field |
| `PaginationProperties.SetterStoresInPagePosition` | ScaleformUI_Csharp/PaginationHandler.cs:45 | the stored value lies in a page, and equals the argument exactly when the argument is in `[0, itemsPerPage)` |
| `PaginationProperties.PageItemsCountFacts` | ScaleformUI_Csharp/PaginationHandler.cs:102-109 | a page holds at most `itemsPerPage` items: all of them when it ends inside the collection, `totalItems - p*itemsPerPage` on a partial last page, at least one when it starts inside the collection, and a count `<= 0` past the end |
| `PaginationProperties.ItemsOnPageBlock` | ScaleformUI_Csharp/PaginationHandler.cs:102-109 | counting the items `0 .. n-1` that lie on page `p >= 0` one by one gives the part of the page's block below `n` |
| `PaginationProperties.PageItemsCountIsItemsOnPage` | ScaleformUI_Csharp/PaginationHandler.cs:102-109 | `GetPageItemsCount(p)` equals the number of items of the collection on page `p`, counted one by one, for every page that starts inside the collection |
| `Pagination.PaginationState.GetPageItemsCount` | ScaleformUI_Csharp/PaginationHandler.cs:102-109 | computes the page's capacity cut at the collection end; stated by `PageItemsCountFacts` and `PageItemsCountIsItemsOnPage` |
| `PaginationProperties.MissingItemsRange` | ScaleformUI_Csharp/PaginationHandler.cs:111-115 | the missing slots are never negative, and are fewer than a page exactly when the current page starts inside the collection |
| `Pagination.PaginationState.GetMissingItems` | ScaleformUI_Csharp/PaginationHandler.cs:111-115 | computes `itemsPerPage` less the current page's count; stated by `MissingItemsRange` and `EndSlotIsLastFilled` |
| `PaginationProperties.TotalPagesBracket` | ScaleformUI_Csharp/PaginationHandler.cs:18 | `TotalPages()` whole pages fit into the collection, and one more does not |
| `Pagination.PaginationState.TotalPages` | ScaleformUI_Csharp/PaginationHandler.cs:18 | computes the floor of `totalItems / itemsPerPage`; stated by `TotalPagesBracket` |
| `PaginationProperties.StartIndexOnPage` | ScaleformUI_Csharp/PaginationHandler.cs:19 | the page's start index is on the current page, at position 0 |
| `Pagination.PaginationState.CurrentPageStartIndex` | ScaleformUI_Csharp/PaginationHandler.cs:19 | computes `currentPage * itemsPerPage`; stated by `StartIndexOnPage` |
| `PaginationProperties.PartialLastPage` | ScaleformUI_Csharp/PaginationHandler.cs:18-44 | on the partial last page (`currentPage == TotalPages()`, remainder non-zero) the last item is on the page, and the page holds the remainder |
| `PaginationProperties.FullPageInside` | ScaleformUI_Csharp/PaginationHandler.cs:18-44 | a page that starts inside the collection and is not the partial last page ends inside it |
| `PaginationProperties.EndIndexCases` | ScaleformUI_Csharp/PaginationHandler.cs:20-44 | the end index is `totalItems` when the collection fits in one page, `totalItems - 1` on a partial last page, and `start + itemsPerPage - 1` otherwise; on a page inside the collection it is the page's last item, `start + count - 1` |
| `Pagination.PaginationState.CurrentPageEndIndex` | ScaleformUI_Csharp/PaginationHandler.cs:20-44 | computes the three branches of the property; stated by `EndIndexCases`, `CursorAtPageEnd` and `EndSlotIsLastFilled` |
| `PaginationProperties.EndSlotIsLastFilled` | ScaleformUI_Csharp/PaginationHandler.cs:149-156 | the position of the page's last item is its count minus one; adding the missing slots, as Classic does, gives the window's last slot |
| `PaginationProperties.CursorAtPageEnd` | ScaleformUI_Csharp/PaginationHandler.cs:20-44 | a cursor on the collection's last item, or on the last position of its page, is its page's end index |
| `PaginationProperties.BeforePageStart` | ScaleformUI_Csharp/PaginationHandler.cs:84-89 | the item before a page's first item is at the last position of its page |
| `IndexMath.WrapDown` | ScaleformUI_Csharp/PaginationHandler.cs:120-125 | from inside `[0, n)`, one step back stays inside `[0, n)` |
| `IndexMath.WrapUp` | ScaleformUI_Csharp/PaginationHandler.cs:166-171 | from inside `[0, n)`, one step forward stays inside `[0, n)` |
| `IndexMath.WrapIsModular` | ScaleformUI_Csharp/PaginationHandler.cs:120-125 | the two wrapped steps are `(i - 1 + n) % n` and `(i + 1) % n` |
| `IndexMath.WrapKeepsSpan` | ScaleformUI_Csharp/PaginationHandler.cs:138-143 | stepping both window ends the same way keeps the window's cyclic span `(max - min) % n` |
| `Pagination.PaginationHandler.GoUp` | ScaleformUI_Csharp/PaginationHandler.cs:117-161 | updating the fields in place gives exactly the state and the result of `StepUp` on the old fields |
| `Pagination.PaginationHandler.GoDown` | ScaleformUI_Csharp/PaginationHandler.cs:163-204 | updating the fields in place gives exactly the state and the result of `StepDown` on the old fields |
| `Pagination.PaginationState.StepUp` | ScaleformUI_Csharp/PaginationHandler.cs:117-161 | the state and result of `GoUp` as a value; stated by `StepUpCursor`, `StepUpOutcome`, `StepUpOneShift`, `StepUpPageJump`, `StepUpKeepsValid` and the view lemmas |
| `Pagination.PaginationState.StepDown` | ScaleformUI_Csharp/PaginationHandler.cs:163-204 | the state and result of `GoDown` as a value; stated by `StepDownCursor`, `StepDownOutcome`, `StepDownOneShift`, `StepDownPageJump`, `StepDownKeepsValid` and the view lemmas |
| `PaginationProperties.StepUpCursor` | ScaleformUI_Csharp/PaginationHandler.cs:119-128 | `GoUp` moves the cursor to `(m - 1 + totalItems) % totalItems`, its page and position agree with it, and the configuration is unchanged |
| `PaginationProperties.StepUpOutcome` | ScaleformUI_Csharp/PaginationHandler.cs:127-160 | `GoUp` returns true exactly when the slot falls below 0 on a collection larger than a page; otherwise the window is unchanged, and the slot is one less, or `totalItems - 1` on a one-page collection |
| `PaginationProperties.StepUpOneShift` | ScaleformUI_Csharp/PaginationHandler.cs:136-146 | Infinite, or Classic without wrap: both window ends move to their cyclic predecessors, the span is kept, the slot is 0, the result is true |
| `PaginationProperties.StepUpPageJump` | ScaleformUI_Csharp/PaginationHandler.cs:147-158 | Paginated, or Classic with wrap: the window becomes the cursor's page `[start, end]`, which contains the cursor; Classic lands on item `totalItems - 1` in slot `itemsPerPage - 1`, Paginated in slot `count - 1` |
| `PaginationProperties.StepUpKeepsValid` | ScaleformUI_Csharp/PaginationHandler.cs:117-161 | `GoUp` keeps the cursor in the collection with its page and position up to date, the slot below the page size and the item count, and the window bounds item indices; how slot and window follow the cursor is in the view lemmas |
| `PaginationProperties.StepDownCursor` | ScaleformUI_Csharp/PaginationHandler.cs:165-173 | `GoDown` moves the cursor to `(m + 1) % totalItems` with its position updated; its page too, except after a slot overrun, which leaves `currentPage` as it was |
| `PaginationProperties.StepDownOutcome` | ScaleformUI_Csharp/PaginationHandler.cs:173-203 | `GoDown` returns true exactly when the new slot passes `itemsPerPage - 1` without reaching `totalItems`, never on a one-page collection; otherwise the window is unchanged and the slot is one more, or 0 after an overrun |
| `PaginationProperties.StepDownOneShift` | ScaleformUI_Csharp/PaginationHandler.cs:181-192 | Infinite, or Classic without wrap: both window ends move to their cyclic successors, the span is kept, the slot is `itemsPerPage - 1`, the result is true |
| `PaginationProperties.StepDownPageJump` | ScaleformUI_Csharp/PaginationHandler.cs:193-200 | Paginated, or Classic with wrap: the window becomes the cursor's page, which contains the cursor; the slot is 0; Classic lands on item 0 with the window starting at 0 |
| `PaginationProperties.StepDownKeepsValid` | ScaleformUI_Csharp/PaginationHandler.cs:163-204 | `GoDown` keeps the same bounds as `StepUpKeepsValid`, the page included in the overrun branch that does not recompute it |
| `PaginationProperties.DownUndoesUp` | ScaleformUI_Csharp/PaginationHandler.cs:117-204 | from a consistent state, a `GoUp` that returns false followed by `GoDown` returns false and restores the original state |
| `PaginationProperties.UpUndoesDown` | ScaleformUI_Csharp/PaginationHandler.cs:117-204 | from a consistent state, a `GoDown` that returns false followed by `GoUp` returns false and restores the original state |
| `PaginationProperties.Downs` | ScaleformUI_Csharp/PaginationHandler.cs:163-204 | repeated `GoDown` calls never change the page size, the item count or the scrolling type |
| `PaginationProperties.Ups` | ScaleformUI_Csharp/PaginationHandler.cs:117-161 | repeated `GoUp` calls never change the page size, the item count or the scrolling type |
| `PaginationProperties.DownsCursor` | ScaleformUI_Csharp/PaginationHandler.cs:165-171 | up to a full turn, `n` calls of `GoDown` move the cursor forward by `n`, wrapping once past the last item; `totalItems` calls return it to its start |
| `PaginationProperties.UpsCursor` | ScaleformUI_Csharp/PaginationHandler.cs:119-125 | up to a full turn, `n` calls of `GoUp` move the cursor back by `n`, wrapping once past item 0; `totalItems` calls return it to its start |
| `PaginationProperties.DownsKeepValid` | ScaleformUI_Csharp/PaginationHandler.cs:163-204 | any number of `GoDown` calls keeps a consistent state consistent |
| `PaginationProperties.UpsKeepValid` | ScaleformUI_Csharp/PaginationHandler.cs:117-161 | any number of `GoUp` calls keeps a consistent state consistent |
| `PaginationProperties.ShiftedUpKeepsView` | ScaleformUI_Csharp/PaginationHandler.cs:117-161 | under Infinite scrolling, or Classic on whole pages, on a collection larger than a page: `GoUp` keeps the window `itemsPerPage` consecutive items with the cursor `scaleformIndex` items after `minItem`, cyclically, and returns true exactly when the slot was 0 |
| `PaginationProperties.ShiftedDownKeepsView` | ScaleformUI_Csharp/PaginationHandler.cs:163-204 | the same view kept by `GoDown`, which returns true exactly when the slot was `itemsPerPage - 1` |
| `PaginationProperties.SmallUpKeepsView` | ScaleformUI_Csharp/PaginationHandler.cs:127-134 | on a collection that fits in one page, whatever the scrolling type, `GoUp` keeps the slot equal to the cursor and returns false |
| `PaginationProperties.SmallDownKeepsView` | ScaleformUI_Csharp/PaginationHandler.cs:172-178 | on a collection that fits in one page, whatever the scrolling type, `GoDown` keeps the slot equal to the cursor and returns false |
| `PaginationProperties.PagedUpKeepsView` | ScaleformUI_Csharp/PaginationHandler.cs:147-158 | under Paginated scrolling, `GoUp` keeps the window equal to the cursor's page and the slot equal to its position, and returns true exactly when the cursor was at position 0 |
| `PaginationProperties.PagedUpJump` | ScaleformUI_Csharp/PaginationHandler.cs:147-158 | a Paginated `GoUp` from position 0 lands on the end item of the new page, in the slot of its position |
| `PaginationProperties.PagedDownKeepsView` | ScaleformUI_Csharp/PaginationHandler.cs:193-200 | on a collection of whole pages, a Paginated `GoDown` keeps the same view, and returns true exactly when the cursor was at the page's last position |
| `PaginationScenarios.PartialPageExample` | ScaleformUI_Csharp/PaginationHandler.cs:102-115 | 7 items, pages of 5: `TotalPages` 1, page 1 holds 2 items and lacks 3, its end index is 6 |
| `PaginationScenarios.InfiniteScrollScenario` | ScaleformUI_Csharp/PaginationHandler.cs:163-204 | 5 items, windows of 3, Infinite, from the top: three `GoDown` return false, false, true; cursor 3, window 1..3, slot 2 |
| `PaginationScenarios.PaginatedWrapScenario` | ScaleformUI_Csharp/PaginationHandler.cs:117-161 | 10 items, pages of 5, Paginated, from the top: `GoUp` returns true with cursor 9, page 1, window 5..9, slot 4 |
| `PaginationScenarios.PagedDownWrapStep` | ScaleformUI_Csharp/PaginationHandler.cs:163-204 | 7 items, pages of 5, Paginated, cursor on item 6: `GoDown` returns false with cursor 0 on page 0, window still 5..6, slot 2 |
| `PaginationScenarios.PagedDownWrapView` | ScaleformUI_Csharp/PaginationHandler.cs:163-204 | the state before that step shows the cursor's whole page, and the state after it does not |
| `PaginationScenarios.PaginatedPartialWrapScenario` | ScaleformUI_Csharp/PaginationHandler.cs:163-204 | the same step on a handler object gives the same fields |
| `PaginationScenarios.ClassicShiftScenario` | ScaleformUI_Csharp/PaginationHandler.cs:163-204 | 7 items, pages of 5, Classic, from the top: six `GoDown` return false four times, then true twice; cursor 6, window 2..6, slot 4 |
| `Pagination.PaginationState.IsItemVisible` | ScaleformUI_Csharp/PaginationHandler.cs:51-54 | as written: an item is reported visible exactly when it is at or after `minItem`, or at or before `maxItem` |
| `PaginationFindings.IsItemVisibleVersusWindow` | ScaleformUI_Csharp/PaginationHandler.cs:51-54 | `IsItemVisible` holds of every item of the window; it is exact on a wrapped window, and holds of every item when the window does not wrap |
| `PaginationFindings.IsItemVisibleOverReports` | ScaleformUI_Csharp/PaginationHandler.cs:51-54 | 10 items, window 5..9: item 2 is reported visible but is not in the window |
| `PaginationFindings.InWindowIsCyclicOffset` | ScaleformUI_Csharp/PaginationHandler.cs:51-54 | the corrected check: an item is in the window exactly when its cyclic offset from `minItem` is at most the window's cyclic span |
| `PaginationFindings.SlotOfWindowItem` | ScaleformUI_Csharp/PaginationHandler.cs:56-68 | on a window of one page of consecutive items, the slot of an item of the window is its cyclic offset from `minItem` plus the missing slots; that offset is below `itemsPerPage`, so the slot lies in `[missing, missing + itemsPerPage)` rather than in the window's slots whenever slots are missing |
| `PaginationFindings.CyclicWindowReading` | ScaleformUI_Csharp/PaginationHandler.cs:56-68 | on a window of `itemsPerPage` consecutive items with the cursor at offset `scaleformIndex`, the cursor is in the window at `(minItem + scaleformIndex) % totalItems`, and `GetScaleformIndex` reports `scaleformIndex` plus the page's missing slots |
| `PaginationFindings.ClassicShiftDownStep` | ScaleformUI_Csharp/PaginationHandler.cs:179-191 | 7 items, pages of 5, Classic: the sixth `GoDown` from the top shifts window 1..5 to 2..6 with the cursor on item 6, page 1, position 1, slot 4 |
| `PaginationFindings.ShiftedSlotPastWindow` | ScaleformUI_Csharp/PaginationHandler.cs:56-68 | on that full window, `GetScaleformIndex(6)` adds 3 missing slots and gives 7, past the last slot |
| `PaginationFindings.ClassicWrapUpStep` | ScaleformUI_Csharp/PaginationHandler.cs:147-158 | 7 items, pages of 5, Classic, from the top: `GoUp` wraps to item 6, window 5..6, slot 4, and returns true |
| `PaginationFindings.ClassicUpFromSlot4` | ScaleformUI_Csharp/PaginationHandler.cs:117-161 | from there `GoUp` moves the cursor to item 5, slot 3, window kept, result false |
| `PaginationFindings.ClassicUpFromSlot3` | ScaleformUI_Csharp/PaginationHandler.cs:117-161 | and the next `GoUp` moves it to item 4 on page 0, slot 2, window still 5..6, result false |
| `PaginationFindings.ClassicCursorLeavesWindow` | ScaleformUI_Csharp/PaginationHandler.cs:117-161 | the two steps together: window 5..6, cursor on item 4 |
| `PaginationFindings.ClassicStrandedCursor` | ScaleformUI_Csharp/PaginationHandler.cs:117-161 | the state so reached is consistent, and its cursor is not in its window |
| `PaginationFindings.MenuIndexFromSlotMisreads` | ScaleformUI_Csharp/PaginationHandler.cs:70-82 | 10 items, pages of 5, window 5..9: item 7 is in slot 2, and slot 2 maps back to item 3 |
| `PaginationFindings.MenuIndexAtSlot` | ScaleformUI_Csharp/PaginationHandler.cs:70-82 | the corrected mapping always gives an item of the collection |
| `PaginationFindings.SlotRoundTrip` | ScaleformUI_Csharp/PaginationHandler.cs:56-82 | on a window of one page of consecutive items, the corrected mapping undoes `GetScaleformIndex` for every item of the window |

## Left out

- `ToString` (PaginationHandler.cs:206 onward) only formats the counters for debugging.
- The plain property accessors (`CurrentPage`, `ItemsPerPage`, `TotalItems`, `CurrentMenuIndex`, `MinItem`, `MaxItem`, `ScaleformIndex`) are direct reads and writes of the fields. They are field accesses in the model; only the `CurrentPageIndex` setter, which converts its argument, is a method.
- `ScrollingType` is declared outside PaginationHandler.cs, in a file that is not part of this model. Its three values are taken from their uses.
- Integers are unbounded. C#'s 32-bit `int` wrap-around is not modelled; it matters only for counts near 2^31.
- `Math.Floor(x / (float)k)` is modelled as exact floor division. Single-precision rounding of quotients of integers beyond 2^24 is not modelled.
- `itemsPerPage == 0` makes the source divide by zero, a float division whose result is then cast back. The helpers that divide require `itemsPerPage >= 1`.
- `Pagination.PaginationHandler.GoUp`: `totalItems == 0` is excluded by `requires totalItems >= 1`, and so is it for `GoDown`. The code does not guard that case and computes meaningless indices.
- The rendering layer, the menu that owns the handler, and input handling are outside the handler. They reach it only through its fields.
- `PaginationProperties.PageItemsCountIsItemsOnPage`: stated for pages numbered from 0. A negative page holds no item of the collection, while `GetPageItemsCount` still gives it a positive count.

## Findings

| source | as written | input that shows it | evidently intended | confidence | as-written member | corrected member |
|---|---|---|---|---|---|---|
| ScaleformUI_Csharp/PaginationHandler.cs:51-54 | an item is visible when it is at or after `minItem`, or at or before both bounds; on a window that does not wrap, every item passes | 10 items, window 5..9: item 2 is reported visible | visible exactly when inside the cyclic window from `minItem` to `maxItem` | medium, not executed | `PaginationFindings.IsItemVisibleOverReports` | `PaginationFindings.InWindowIsCyclicOffset` |
| ScaleformUI_Csharp/PaginationHandler.cs:70-82 | the slot is compared with `minItem`, an item index, and earlier slots map to `totalItems - minItem - slot` | 10 items, pages of 5, window 5..9: item 7 sits in slot 2, and slot 2 maps to item 3 | the inverse of `GetScaleformIndex`: `(minItem + slot - missing) % totalItems` | medium, not executed | `PaginationFindings.MenuIndexFromSlotMisreads` | `PaginationFindings.SlotRoundTrip` |
