/** Concrete runs on small collections. The lemmas evaluate the pure step
    functions; each method builds a fresh handler, configures it through its
    fields as the owning menu does, and moves the cursor. */
module PaginationScenarios {
  import opened Pagination
  import opened PaginationProperties

  /** Seven items in pages of five: one whole page, a second page holding
      two items and lacking three, whose last item is item 6. */
  lemma PartialPageExample()
    ensures var s := PaginationState(1, 6, 1, 5, 5, 6, 7, 4, Classic);
            s.TotalPages() == 1 && s.GetPageItemsCount(1) == 2 && s.GetMissingItems() == 3
            && s.CurrentPageEndIndex() == 6
  {
  }

  /** Five items, windows of three, Infinite scrolling, from the top: three
      `GoDown` report no move, no move, a move; the cursor ends on item 3 in
      the bottom slot of the window 1..3. */
  method InfiniteScrollScenario() returns (moved: seq<bool>, cursor: int, first: int, last: int, slot: int)
    ensures moved == [false, false, true]
    ensures cursor == 3 && first == 1 && last == 3 && slot == 2
  {
    var h := new PaginationHandler();
    h.itemsPerPage, h.totalItems, h.maxItem, h.scrollType := 3, 5, 2, Infinite;
    var a := h.GoDown();
    var b := h.GoDown();
    var c := h.GoDown();
    moved := [a, b, c];
    cursor, first, last, slot := h.currentMenuIndex, h.minItem, h.maxItem, h.scaleformIndex;
  }

  /** Ten items, pages of five, Paginated scrolling, from the top: `GoUp`
      wraps the cursor to item 9 on page 1 and moves the window to that
      page, 5..9, with the cursor in its last slot. */
  method PaginatedWrapScenario() returns (moved: bool, cursor: int, page: int, first: int, last: int, slot: int)
    ensures moved
    ensures cursor == 9 && page == 1 && first == 5 && last == 9 && slot == 4
  {
    var h := new PaginationHandler();
    h.itemsPerPage, h.totalItems, h.maxItem, h.scrollType := 5, 10, 4, Paginated;
    moved := h.GoUp();
    cursor, page, first, last, slot := h.currentMenuIndex, h.currentPage, h.minItem, h.maxItem, h.scaleformIndex;
  }

  /** Seven items, pages of five, Paginated scrolling, the cursor on the
      last item, which is the end of the last page shown in the window:
      `GoDown` wraps the cursor to item 0 on page 0 and, the slot staying
      inside the window, reports no move, so the window keeps showing the
      last page 5..6 and no longer shows the cursor's page. */
  lemma PagedDownWrapStep()
    ensures PaginationState(1, 6, 1, 5, 5, 6, 7, 1, Paginated).StepDown()
              == Step(PaginationState(0, 0, 0, 5, 5, 6, 7, 2, Paginated), false)
  {
  }

  /** The state before that step is a Paginated view, and the state after it
      is not. */
  lemma PagedDownWrapView()
    ensures PagedView(PaginationState(1, 6, 1, 5, 5, 6, 7, 1, Paginated))
    ensures !PagedView(PaginationState(0, 0, 0, 5, 5, 6, 7, 2, Paginated))
  {
  }

  /** The same run on a handler object. */
  method PaginatedPartialWrapScenario() returns (moved: bool, cursor: int, page: int, first: int, last: int, slot: int)
    ensures !moved
    ensures cursor == 0 && page == 0 && first == 5 && last == 6 && slot == 2
  {
    var h := new PaginationHandler();
    h.itemsPerPage, h.totalItems, h.scrollType := 5, 7, Paginated;
    h.currentMenuIndex, h.currentPage, h.currentPageIndex := 6, 1, 1;
    h.minItem, h.maxItem, h.scaleformIndex := 5, 6, 1;
    moved := h.GoDown();
    cursor, page, first, last, slot := h.currentMenuIndex, h.currentPage, h.minItem, h.maxItem, h.scaleformIndex;
  }

  /** Seven items, pages of five, Classic scrolling, from the top: six
      `GoDown` move the window on the fifth and sixth calls only, one item
      each, to 2..6, with the cursor on item 6 in the bottom slot 4: the
      window of `ShiftedSlotPastWindow`. */
  method ClassicShiftScenario() returns (moved: seq<bool>, cursor: int, first: int, last: int, slot: int)
    ensures moved == [false, false, false, false, true, true]
    ensures cursor == 6 && first == 2 && last == 6 && slot == 4
  {
    var h := new PaginationHandler();
    h.itemsPerPage, h.totalItems, h.maxItem := 5, 7, 4;
    var a := h.GoDown();
    var b := h.GoDown();
    var c := h.GoDown();
    var d := h.GoDown();
    var e := h.GoDown();
    var f := h.GoDown();
    moved := [a, b, c, d, e, f];
    cursor, first, last, slot := h.currentMenuIndex, h.minItem, h.maxItem, h.scaleformIndex;
  }
}
