/** The pagination state machine of a scrollable menu. It translates between
    three index spaces: the logical item index, the page together with the
    index inside that page, and the slot of the visible window, and it moves
    a cursor through them one item at a time. */
module Pagination {
  import opened IndexMath

  /** How the visible window moves when the cursor leaves it. */
  datatype ScrollingType = Classic | Infinite | Paginated {

    /** True when the window moves by one item rather than jumping to a whole
        page: always under Infinite, and under Classic when the cursor did not
        wrap around the collection. */
    predicate ShiftsByOne(overflow: bool) {
      this == Infinite || (this == Classic && !overflow)
    }
  }

  /** The eight counters of a handler and its scrolling type, as one value.
      The page helpers are its member functions, and `StepUp`/`StepDown`
      give the state after one cursor move. */
  datatype PaginationState = PaginationState(
    currentPageIndex: int,
    currentMenuIndex: int,
    currentPage: int,
    itemsPerPage: int,
    minItem: int,
    maxItem: int,
    totalItems: int,
    scaleformIndex: int,
    scrollType: ScrollingType)
  {
    /** A consistent state: a configured, non-empty menu; a cursor inside the
        collection whose page and in-page index agree with it; a slot number
        below both the page size and the item count; and window bounds that
        are item indices. It does not tie the slot and the window to the
        cursor: what each scrolling type keeps of that is stated separately
        (`ShiftedView`, `PagedView`, `SmallView`). */
    predicate Valid() {
      itemsPerPage >= 1 && totalItems >= 1 &&
      0 <= currentMenuIndex < totalItems &&
      currentPage == GetPage(currentMenuIndex) &&
      currentPageIndex == GetPageIndexFromMenuIndex(currentMenuIndex) &&
      0 <= scaleformIndex < itemsPerPage && scaleformIndex < totalItems &&
      0 <= minItem < totalItems && 0 <= maxItem < totalItems
    }

    /** The page an item falls on: floor division by the page size. */
    function GetPage(menuIndex: int): (page: int)
      requires itemsPerPage >= 1
    {
      menuIndex / itemsPerPage
    }

    /** Position of an item inside its page. It always lies inside a page,
        and together with the page it rebuilds the item. */
    function GetPageIndexFromMenuIndex(menuIndex: int): (index: int)
      requires itemsPerPage >= 1
      ensures 0 <= index < itemsPerPage
    {
      FloorBracket(menuIndex, itemsPerPage);
      var page := GetPage(menuIndex);
      var startIndex := page * itemsPerPage;
      menuIndex - startIndex
    }

    /** The item at position `index` of page `page`. */
    function GetMenuIndexFromPageIndex(page: int, index: int): (menuIndex: int) {
      var initialIndex := page * itemsPerPage;
      initialIndex + index
    }

    /** Number of items on page `page`: its nominal capacity, cut at the end
        of the collection. */
    function GetPageItemsCount(page: int): (count: int) {
      var first := page * itemsPerPage;
      var last := if first + itemsPerPage - 1 >= totalItems then totalItems - 1
                  else first + itemsPerPage - 1;
      (last - first) + 1
    }

    /** Slots of the window that no item fills on the current page. */
    function GetMissingItems(): (missing: int) {
      var count := GetPageItemsCount(currentPage);
      itemsPerPage - count
    }

    /** Floor of the item count over the page size. */
    function TotalPages(): (pages: int)
      requires itemsPerPage >= 1
    {
      totalItems / itemsPerPage
    }

    /** First item of the current page. */
    function CurrentPageStartIndex(): (start: int) {
      currentPage * itemsPerPage
    }

    /** Last item of the current page; `totalItems` itself when the whole
        collection fits in one page. */
    function CurrentPageEndIndex(): (end: int)
      requires itemsPerPage >= 1
    {
      if totalItems > itemsPerPage then
        if totalItems % itemsPerPage == 0 then
          CurrentPageStartIndex() + itemsPerPage - 1
        else if currentPage == TotalPages() then
          CurrentPageStartIndex() + GetPageIndexFromMenuIndex(totalItems - 1)
        else
          CurrentPageStartIndex() + itemsPerPage - 1
      else
        totalItems
    }

    /** Whether an item is reported as visible. As written this holds for
        every item at or after the window start, whatever the window end. */
    function IsItemVisible(menuIndex: int): (visible: bool)
      ensures visible <==> menuIndex >= minItem || menuIndex <= maxItem
    {
      menuIndex >= minItem || (menuIndex <= minItem && menuIndex <= maxItem)
    }

    /** The window slot of an item: its offset from the window start, or,
        for an item before the start but not after the end, its offset from
        the window's last slot; plus the missing slots of a partial page. */
    function GetScaleformIndex(menuIndex: int): (slot: int) {
      var id := if minItem <= menuIndex then menuIndex - minItem
                else if minItem > menuIndex && maxItem >= menuIndex then (menuIndex - maxItem) + (itemsPerPage - 1)
                else 0;
      id + GetMissingItems()
    }

    /** The item said to sit in a window slot. As written the slot number is
        compared against the window start, which is an item index. */
    function GetMenuIndexFromScaleformIndex(slot: int): (menuIndex: int) {
      if minItem <= slot then slot + minItem
      else if minItem > slot && maxItem >= slot then GetMenuIndexFromPageIndex(0, (totalItems - minItem) - slot)
      else 0
    }

    /** The state after `GoUp`, and whether the window moved. */
    function StepUp(): (r: Step)
      requires itemsPerPage >= 1 && totalItems >= 1
    {
      var overflow := currentMenuIndex - 1 < 0;
      var m := WrapDown(currentMenuIndex, totalItems);
      var s := this.(currentMenuIndex := m, currentPageIndex := GetPageIndexFromMenuIndex(m),
                     scaleformIndex := scaleformIndex - 1, currentPage := GetPage(m));
      if s.scaleformIndex < 0 then
        if totalItems <= itemsPerPage then
          Step(s.(scaleformIndex := totalItems - 1), false)
        else if scrollType.ShiftsByOne(overflow) then
          Step(s.(minItem := WrapDown(minItem, totalItems), maxItem := WrapDown(maxItem, totalItems),
                  scaleformIndex := 0), true)
        else
          Step(s.(minItem := s.CurrentPageStartIndex(), maxItem := s.CurrentPageEndIndex(),
                  scaleformIndex := s.GetPageIndexFromMenuIndex(s.CurrentPageEndIndex())
                                    + (if scrollType == Classic then s.GetMissingItems() else 0)), true)
      else
        Step(s, false)
    }

    /** The state after `GoDown`, and whether the window moved. */
    function StepDown(): (r: Step)
      requires itemsPerPage >= 1 && totalItems >= 1
    {
      var overflow := currentMenuIndex + 1 >= totalItems;
      var m := WrapUp(currentMenuIndex, totalItems);
      var s := this.(currentMenuIndex := m, currentPageIndex := GetPageIndexFromMenuIndex(m),
                     scaleformIndex := scaleformIndex + 1);
      if s.scaleformIndex >= totalItems then
        Step(s.(scaleformIndex := 0), false)
      else if s.scaleformIndex > itemsPerPage - 1 then
        var p := s.(currentPage := GetPage(m));
        if scrollType.ShiftsByOne(overflow) then
          Step(p.(scaleformIndex := itemsPerPage - 1, minItem := WrapUp(minItem, totalItems),
                  maxItem := WrapUp(maxItem, totalItems)), true)
        else
          Step(p.(minItem := p.CurrentPageStartIndex(), maxItem := p.CurrentPageEndIndex(),
                  scaleformIndex := 0), true)
      else
        Step(s.(currentPage := GetPage(m)), false)
    }
  }

  /** The outcome of one cursor move: the new state, and whether the visible
      window moved. */
  datatype Step = Step(state: PaginationState, shifted: bool)

  /** The handler object: the same counters as fields, updated in place. */
  class PaginationHandler {
    var currentPageIndex: int
    var currentMenuIndex: int
    var currentPage: int
    var itemsPerPage: int
    var minItem: int
    var maxItem: int
    var totalItems: int
    var scaleformIndex: int
    var scrollType: ScrollingType

    /** The fields as one value. */
    function State(): (s: PaginationState)
      reads this
    {
      PaginationState(currentPageIndex, currentMenuIndex, currentPage, itemsPerPage,
                      minItem, maxItem, totalItems, scaleformIndex, scrollType)
    }

    /** A freshly created handler: every counter zero, Classic scrolling. */
    constructor ()
      ensures State() == PaginationState(0, 0, 0, 0, 0, 0, 0, 0, Classic)
    {
      currentPageIndex, currentMenuIndex, currentPage := 0, 0, 0;
      itemsPerPage, minItem, maxItem := 0, 0, 0;
      totalItems, scaleformIndex := 0, 0;
      scrollType := Classic;
    }

    /** The setter of the in-page index: it stores the in-page position of
        the value it is given, never the value itself. */
    method SetCurrentPageIndex(value: int)
      requires itemsPerPage >= 1
      modifies this`currentPageIndex
      ensures currentPageIndex == State().GetPageIndexFromMenuIndex(value)
      ensures 0 <= currentPageIndex < itemsPerPage
    {
      currentPageIndex := State().GetPageIndexFromMenuIndex(value);
    }

    /** Moves the cursor one item up, cyclically, and reports whether the
        visible window moved. */
    method GoUp() returns (shifted: bool)
      requires itemsPerPage >= 1 && totalItems >= 1
      modifies this
      ensures Step(State(), shifted) == old(State()).StepUp()
    {
      ghost var before := State();
      var overflow := false;
      currentMenuIndex := currentMenuIndex - 1;
      if currentMenuIndex < 0 {
        currentMenuIndex := totalItems - 1;
        overflow := true;
      }
      SetCurrentPageIndex(currentMenuIndex);
      scaleformIndex := scaleformIndex - 1;
      currentPage := State().GetPage(currentMenuIndex);
      ghost var s := before.(currentMenuIndex := currentMenuIndex, currentPageIndex := currentPageIndex,
                             scaleformIndex := scaleformIndex, currentPage := currentPage);
      assert State() == s;
      if scaleformIndex < 0 {
        if totalItems <= itemsPerPage {
          scaleformIndex := totalItems - 1;
          return false;
        }
        if scrollType.ShiftsByOne(overflow) {
          minItem := minItem - 1;
          maxItem := maxItem - 1;
          if minItem < 0 {
            minItem := totalItems - 1;
          }
          if maxItem < 0 {
            maxItem := totalItems - 1;
          }
          scaleformIndex := 0;
          return true;
        } else {
          // Paginated, or Classic after the cursor wrapped the collection
          // none of the page helpers reads the window fields, so they are
          // evaluated on the state reached before the window moves
          var page := State();
          minItem := page.CurrentPageStartIndex();
          maxItem := page.CurrentPageEndIndex();
          scaleformIndex := page.GetPageIndexFromMenuIndex(page.CurrentPageEndIndex());
          if scrollType == Classic {
            var missingItems := page.GetMissingItems();
            scaleformIndex := scaleformIndex + missingItems;
          }
          return true;
        }
      }
      return false;
    }

    /** Moves the cursor one item down, cyclically, and reports whether the
        visible window moved. */
    method GoDown() returns (shifted: bool)
      requires itemsPerPage >= 1 && totalItems >= 1
      modifies this
      ensures Step(State(), shifted) == old(State()).StepDown()
    {
      var overflow := false;
      currentMenuIndex := currentMenuIndex + 1;
      if currentMenuIndex >= totalItems {
        currentMenuIndex := 0;
        overflow := true;
      }
      SetCurrentPageIndex(currentMenuIndex);
      scaleformIndex := scaleformIndex + 1;
      if scaleformIndex >= totalItems {
        scaleformIndex := 0;
        return false;
      } else if scaleformIndex > itemsPerPage - 1 {
        if scrollType.ShiftsByOne(overflow) {
          currentPage := State().GetPage(currentMenuIndex);
          scaleformIndex := itemsPerPage - 1;
          minItem := minItem + 1;
          maxItem := maxItem + 1;
          if minItem >= totalItems {
            minItem := 0;
          }
          if maxItem >= totalItems {
            maxItem := 0;
          }
          return true;
        } else {
          // Paginated, or Classic after the cursor wrapped the collection
          currentPage := State().GetPage(currentMenuIndex);
          var page := State();
          minItem := page.CurrentPageStartIndex();
          maxItem := page.CurrentPageEndIndex();
          scaleformIndex := 0;
          return true;
        }
      }
      currentPage := State().GetPage(currentMenuIndex);
      return false;
    }
  }
}
