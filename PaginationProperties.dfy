/** What the page arithmetic and the two cursor moves of `Pagination`
    guarantee, stated over the value `PaginationState` that the handler's
    fields make up. */
module PaginationProperties {
  import opened IndexMath
  import opened Pagination

  // ---------------------------------------------------------------------
  // Page arithmetic

  /** Page `page` is exactly the block of items
      `[page * itemsPerPage, (page + 1) * itemsPerPage)`. */
  lemma PageOfIndex(s: PaginationState, menuIndex: int, page: int)
    requires s.itemsPerPage >= 1
    ensures s.GetPage(menuIndex) == page <==>
              page * s.itemsPerPage <= menuIndex < (page + 1) * s.itemsPerPage
  {
    FloorBracket(menuIndex, s.itemsPerPage);
    if page * s.itemsPerPage <= menuIndex < (page + 1) * s.itemsPerPage {
      FloorUnique(menuIndex, s.itemsPerPage, page);
    }
  }

  /** Building an item from a page and an in-page position, and splitting it
      again, gives back that page and that position. */
  lemma PageRoundTrip(s: PaginationState, page: int, index: int)
    requires s.itemsPerPage >= 1 && 0 <= index < s.itemsPerPage
    ensures s.GetPage(s.GetMenuIndexFromPageIndex(page, index)) == page
    ensures s.GetPageIndexFromMenuIndex(s.GetMenuIndexFromPageIndex(page, index)) == index
  {
    var m := s.GetMenuIndexFromPageIndex(page, index);
    assert (page + 1) * s.itemsPerPage == page * s.itemsPerPage + s.itemsPerPage;
    PageOfIndex(s, m, page);
  }

  /** Splitting an item into its page and in-page position and building it
      again gives back the item; an item of the collection lies on a page
      numbered from zero. */
  lemma SplitRoundTrip(s: PaginationState, menuIndex: int)
    requires s.itemsPerPage >= 1
    ensures s.GetMenuIndexFromPageIndex(s.GetPage(menuIndex), s.GetPageIndexFromMenuIndex(menuIndex)) == menuIndex
    ensures 0 <= menuIndex ==> 0 <= s.GetPage(menuIndex)
    ensures menuIndex < s.totalItems ==> s.GetPage(menuIndex) * s.itemsPerPage < s.totalItems
  {
    FloorBracket(menuIndex, s.itemsPerPage);
  }

  /** The `CurrentPageIndex` setter keeps a position inside a page, and it
      stores its argument unchanged exactly when that argument already is
      one. */
  lemma SetterStoresInPagePosition(s: PaginationState, value: int)
    requires s.itemsPerPage >= 1
    ensures 0 <= s.GetPageIndexFromMenuIndex(value) < s.itemsPerPage
    ensures s.GetPageIndexFromMenuIndex(value) == value <==> 0 <= value < s.itemsPerPage
  {
    PageOfIndex(s, value, 0);
  }

  /** Every page holds at most `itemsPerPage` items: all of them when the
      page ends inside the collection, the remainder on a partial last page,
      at least one on any page that starts inside the collection, and none
      (a count of zero or less) on a page that starts at or past its end. */
  lemma PageItemsCountFacts(s: PaginationState, page: int)
    ensures s.GetPageItemsCount(page) <= s.itemsPerPage
    ensures (page + 1) * s.itemsPerPage <= s.totalItems ==> s.GetPageItemsCount(page) == s.itemsPerPage
    ensures page * s.itemsPerPage < s.totalItems < (page + 1) * s.itemsPerPage ==>
              s.GetPageItemsCount(page) == s.totalItems - page * s.itemsPerPage
    ensures s.itemsPerPage >= 1 && page * s.itemsPerPage < s.totalItems ==> 1 <= s.GetPageItemsCount(page)
    ensures page * s.itemsPerPage >= s.totalItems ==> s.GetPageItemsCount(page) <= 0
  {
    assert (page + 1) * s.itemsPerPage == page * s.itemsPerPage + s.itemsPerPage;
  }

  /** Reference count: how many of the items `0 .. n-1` lie on page `page`. */
  function ItemsOnPage(s: PaginationState, page: int, n: nat): nat
    requires s.itemsPerPage >= 1
  {
    if n == 0 then 0
    else ItemsOnPage(s, page, n - 1) + (if s.GetPage(n - 1) == page then 1 else 0)
  }

  /** Among the first `n` items, page `page` holds those of its block that
      come before `n`. */
  lemma {:induction false} ItemsOnPageBlock(s: PaginationState, page: int, n: nat)
    requires s.itemsPerPage >= 1 && 0 <= page
    ensures ItemsOnPage(s, page, n) ==
              if n <= page * s.itemsPerPage then 0
              else if n >= (page + 1) * s.itemsPerPage then s.itemsPerPage
              else n - page * s.itemsPerPage
  {
    var k := s.itemsPerPage;
    assert (page + 1) * k == page * k + k;
    if n == 0 {
      MulMonotone(0, page, k);
    } else {
      ItemsOnPageBlock(s, page, n - 1);
      PageOfIndex(s, n - 1, page);
    }
  }

  /** `GetPageItemsCount` is the number of items of the collection that lie
      on the page, for every page that starts inside the collection; the
      other pages hold no item and get a count of zero or less. */
  lemma PageItemsCountIsItemsOnPage(s: PaginationState, page: int)
    requires s.itemsPerPage >= 1 && 0 <= page && 0 <= s.totalItems
    ensures page * s.itemsPerPage < s.totalItems ==>
              s.GetPageItemsCount(page) == ItemsOnPage(s, page, s.totalItems)
    ensures page * s.itemsPerPage >= s.totalItems ==>
              ItemsOnPage(s, page, s.totalItems) == 0 && s.GetPageItemsCount(page) <= 0
  {
    ItemsOnPageBlock(s, page, s.totalItems);
    PageItemsCountFacts(s, page);
  }

  /** The missing slots never go negative, and stay below a whole page
      exactly when the current page starts inside the collection. */
  lemma MissingItemsRange(s: PaginationState)
    requires s.itemsPerPage >= 1
    ensures s.GetMissingItems() >= 0
    ensures s.GetMissingItems() < s.itemsPerPage <==> s.currentPage * s.itemsPerPage < s.totalItems
  {
    PageItemsCountFacts(s, s.currentPage);
  }

  /** `TotalPages` is floor division: whole pages fit into the collection
      `TotalPages()` times, and not once more. */
  lemma TotalPagesBracket(s: PaginationState)
    requires s.itemsPerPage >= 1
    ensures s.TotalPages() * s.itemsPerPage <= s.totalItems < (s.TotalPages() + 1) * s.itemsPerPage
  {
    FloorBracket(s.totalItems, s.itemsPerPage);
  }

  /** The current page's first item lies on the current page, at in-page
      position 0. */
  lemma StartIndexOnPage(s: PaginationState)
    requires s.itemsPerPage >= 1
    ensures s.GetPage(s.CurrentPageStartIndex()) == s.currentPage
    ensures s.GetPageIndexFromMenuIndex(s.CurrentPageStartIndex()) == 0
  {
    PageRoundTrip(s, s.currentPage, 0);
  }

  /** On a partial last page the last item `totalItems - 1` lies on that
      page, and the page holds the remainder of the items. */
  lemma PartialLastPage(s: PaginationState)
    requires s.itemsPerPage >= 1 && s.totalItems % s.itemsPerPage != 0
    requires s.currentPage == s.TotalPages()
    ensures s.GetPage(s.totalItems - 1) == s.currentPage
    ensures s.currentPage * s.itemsPerPage < s.totalItems < (s.currentPage + 1) * s.itemsPerPage
    ensures s.GetPageItemsCount(s.currentPage) == s.totalItems - s.currentPage * s.itemsPerPage
  {
    var k, t, q := s.itemsPerPage, s.totalItems, s.currentPage;
    TotalPagesBracket(s);
    assert t == q * k + t % k;
    FloorUnique(t - 1, k, q);
    PageItemsCountFacts(s, q);
  }

  /** A page that starts inside the collection is full unless it is the
      partial last page. */
  lemma FullPageInside(s: PaginationState)
    requires s.itemsPerPage >= 1
    requires 0 <= s.currentPage && s.currentPage * s.itemsPerPage < s.totalItems
    requires s.totalItems % s.itemsPerPage == 0 || s.currentPage != s.TotalPages()
    ensures (s.currentPage + 1) * s.itemsPerPage <= s.totalItems
  {
    var k, t, p := s.itemsPerPage, s.totalItems, s.currentPage;
    var q := s.TotalPages();
    TotalPagesBracket(s);
    assert t == q * k + t % k;
    if p > q {
      MulMonotone(q + 1, p, k);
      assert false;
    } else if p < q {
      MulMonotone(p + 1, q, k);
    }
  }

  /** The cases of `CurrentPageEndIndex`: on a collection larger than a page
      it is the page start plus `itemsPerPage - 1`, except on a partial last
      page, where it is the last item `totalItems - 1`; either way, on a page
      that starts inside the collection it is the page's last item. On a
      collection that fits in one page it is `totalItems`, one past the last
      item. */
  lemma EndIndexCases(s: PaginationState)
    requires s.itemsPerPage >= 1
    ensures s.totalItems <= s.itemsPerPage ==> s.CurrentPageEndIndex() == s.totalItems
    ensures (s.totalItems > s.itemsPerPage && s.totalItems % s.itemsPerPage != 0
              && s.currentPage == s.TotalPages()) ==> s.CurrentPageEndIndex() == s.totalItems - 1
    ensures (s.totalItems > s.itemsPerPage && (s.totalItems % s.itemsPerPage == 0 || s.currentPage != s.TotalPages()))
              ==> s.CurrentPageEndIndex() == s.CurrentPageStartIndex() + s.itemsPerPage - 1
    ensures (s.totalItems > s.itemsPerPage && 0 <= s.currentPage && s.currentPage * s.itemsPerPage < s.totalItems)
              ==> s.CurrentPageEndIndex() == s.CurrentPageStartIndex() + s.GetPageItemsCount(s.currentPage) - 1
                  && 0 <= s.CurrentPageStartIndex() <= s.CurrentPageEndIndex() < s.totalItems
  {
    if s.totalItems > s.itemsPerPage {
      TotalPagesBracket(s);
      if s.totalItems % s.itemsPerPage != 0 && s.currentPage == s.TotalPages() {
        PartialLastPage(s);
      } else if 0 <= s.currentPage && s.currentPage * s.itemsPerPage < s.totalItems {
        FullPageInside(s);
        PageItemsCountFacts(s, s.currentPage);
      }
      if 0 <= s.currentPage {
        MulMonotone(0, s.currentPage, s.itemsPerPage);
      }
    }
  }

  /** The in-page index of the page's last item is the page's item count
      minus one, so adding the missing slots lands on the window's last slot. */
  lemma EndSlotIsLastFilled(s: PaginationState)
    requires s.itemsPerPage >= 1 && s.totalItems > s.itemsPerPage
    requires 0 <= s.currentPage && s.currentPage * s.itemsPerPage < s.totalItems
    ensures s.GetPageIndexFromMenuIndex(s.CurrentPageEndIndex()) == s.GetPageItemsCount(s.currentPage) - 1
    ensures s.GetPageIndexFromMenuIndex(s.CurrentPageEndIndex()) + s.GetMissingItems() == s.itemsPerPage - 1
  {
    EndIndexCases(s);
    PageItemsCountFacts(s, s.currentPage);
    PageRoundTrip(s, s.currentPage, s.GetPageItemsCount(s.currentPage) - 1);
  }

  // ---------------------------------------------------------------------
  // GoUp

  /** The cursor moves to its cyclic predecessor, and its page and in-page
      position are brought up to date; the configuration does not change. */
  lemma StepUpCursor(s: PaginationState)
    requires s.itemsPerPage >= 1 && s.totalItems >= 1
    requires 0 <= s.currentMenuIndex < s.totalItems
    ensures var t := s.StepUp().state;
            t.currentMenuIndex == (s.currentMenuIndex - 1 + s.totalItems) % s.totalItems
            && t.currentPage == t.GetPage(t.currentMenuIndex)
            && t.currentPageIndex == t.GetPageIndexFromMenuIndex(t.currentMenuIndex)
            && t.itemsPerPage == s.itemsPerPage && t.totalItems == s.totalItems
            && t.scrollType == s.scrollType
  {
    WrapIsModular(s.currentMenuIndex, s.totalItems);
  }

  /** The window moves exactly when the slot falls off the window's top on a
      collection larger than a page; otherwise the window stays, and the slot
      is either one less or, on a collection that fits in one page, the last
      item's slot. */
  lemma StepUpOutcome(s: PaginationState)
    requires s.itemsPerPage >= 1 && s.totalItems >= 1
    ensures var r := s.StepUp();
            (r.shifted <==> s.scaleformIndex - 1 < 0 && s.totalItems > s.itemsPerPage)
            && (!r.shifted ==> r.state.minItem == s.minItem && r.state.maxItem == s.maxItem)
            && (s.scaleformIndex - 1 >= 0 ==> r.state.scaleformIndex == s.scaleformIndex - 1)
            && (s.scaleformIndex - 1 < 0 && s.totalItems <= s.itemsPerPage ==>
                  r.state.scaleformIndex == s.totalItems - 1)
  {
  }

  /** Under Infinite scrolling, and under Classic scrolling when the cursor
      did not wrap, both window ends step back cyclically, the cyclic span of
      the window is kept, and the cursor takes the top slot. */
  lemma StepUpOneShift(s: PaginationState)
    requires s.itemsPerPage >= 1 && s.totalItems > s.itemsPerPage
    requires 0 <= s.minItem < s.totalItems && 0 <= s.maxItem < s.totalItems
    requires s.scaleformIndex - 1 < 0 && s.scrollType.ShiftsByOne(s.currentMenuIndex - 1 < 0)
    ensures var r := s.StepUp(); var t := r.state;
            r.shifted
            && t.minItem == (s.minItem - 1 + s.totalItems) % s.totalItems
            && t.maxItem == (s.maxItem - 1 + s.totalItems) % s.totalItems
            && (t.maxItem - t.minItem) % s.totalItems == (s.maxItem - s.minItem) % s.totalItems
            && t.scaleformIndex == 0
  {
    WrapIsModular(s.minItem, s.totalItems);
    WrapIsModular(s.maxItem, s.totalItems);
    WrapKeepsSpan(s.minItem, s.maxItem, s.totalItems);
  }

  /** Under Paginated scrolling, and under Classic scrolling when the cursor
      wrapped to the last item, the window jumps to the whole page of the
      new cursor, which it contains. Classic then puts the cursor in the
      window's last slot; Paginated puts it in the slot of the page's last
      item. */
  lemma StepUpPageJump(s: PaginationState)
    requires s.itemsPerPage >= 1 && s.totalItems > s.itemsPerPage
    requires 0 <= s.currentMenuIndex < s.totalItems
    requires s.scaleformIndex - 1 < 0 && !s.scrollType.ShiftsByOne(s.currentMenuIndex - 1 < 0)
    ensures var r := s.StepUp(); var t := r.state;
            r.shifted
            && t.minItem == t.CurrentPageStartIndex() && t.maxItem == t.CurrentPageEndIndex()
            && 0 <= t.minItem <= t.currentMenuIndex <= t.maxItem < s.totalItems
            && t.maxItem - t.minItem + 1 == t.GetPageItemsCount(t.currentPage)
            && (s.scrollType == Classic ==>
                  t.currentMenuIndex == s.totalItems - 1 && t.scaleformIndex == s.itemsPerPage - 1)
            && (s.scrollType == Paginated ==> t.scaleformIndex == t.GetPageItemsCount(t.currentPage) - 1)
  {
    var t := s.StepUp().state;
    SplitRoundTrip(t, t.currentMenuIndex);
    FloorBracket(t.currentMenuIndex, t.itemsPerPage);
    EndIndexCases(t);
    EndSlotIsLastFilled(t);
  }

  /** `GoUp` keeps a consistent state consistent. */
  lemma StepUpKeepsValid(s: PaginationState)
    requires s.Valid()
    ensures s.StepUp().state.Valid()
  {
    StepUpCursor(s);
    var overflow := s.currentMenuIndex - 1 < 0;
    if s.scaleformIndex - 1 < 0 && s.totalItems > s.itemsPerPage {
      if s.scrollType.ShiftsByOne(overflow) {
        StepUpOneShift(s);
      } else {
        StepUpPageJump(s);
      }
    }
  }

  // ---------------------------------------------------------------------
  // GoDown

  /** The cursor moves to its cyclic successor and its in-page position is
      brought up to date; its page too, except when the slot overran the
      collection; the configuration does not change. */
  lemma StepDownCursor(s: PaginationState)
    requires s.itemsPerPage >= 1 && s.totalItems >= 1
    requires 0 <= s.currentMenuIndex < s.totalItems
    ensures var t := s.StepDown().state;
            t.currentMenuIndex == (s.currentMenuIndex + 1) % s.totalItems
            && t.currentPageIndex == t.GetPageIndexFromMenuIndex(t.currentMenuIndex)
            && (s.scaleformIndex + 1 < s.totalItems ==> t.currentPage == t.GetPage(t.currentMenuIndex))
            && (s.scaleformIndex + 1 >= s.totalItems ==> t.currentPage == s.currentPage)
            && t.itemsPerPage == s.itemsPerPage && t.totalItems == s.totalItems
            && t.scrollType == s.scrollType
  {
    WrapIsModular(s.currentMenuIndex, s.totalItems);
  }

  /** The window moves exactly when the slot passes the window's bottom
      without overrunning the collection, which never happens on a
      collection that fits in one page; otherwise the window stays and the
      slot is one more, or back to 0 after an overrun. */
  lemma StepDownOutcome(s: PaginationState)
    requires s.itemsPerPage >= 1 && s.totalItems >= 1
    ensures var r := s.StepDown();
            (r.shifted <==> s.itemsPerPage - 1 < s.scaleformIndex + 1 < s.totalItems)
            && (s.totalItems <= s.itemsPerPage ==> !r.shifted)
            && (!r.shifted ==> r.state.minItem == s.minItem && r.state.maxItem == s.maxItem)
            && (s.scaleformIndex + 1 >= s.totalItems ==> r.state.scaleformIndex == 0)
            && (s.scaleformIndex + 1 < s.totalItems && s.scaleformIndex + 1 <= s.itemsPerPage - 1 ==>
                  r.state.scaleformIndex == s.scaleformIndex + 1)
  {
  }

  /** Under Infinite scrolling, and under Classic scrolling when the cursor
      did not wrap, both window ends step forward cyclically, the cyclic span
      of the window is kept, and the cursor takes the bottom slot. */
  lemma StepDownOneShift(s: PaginationState)
    requires s.itemsPerPage >= 1 && s.totalItems >= 1
    requires 0 <= s.minItem < s.totalItems && 0 <= s.maxItem < s.totalItems
    requires s.itemsPerPage - 1 < s.scaleformIndex + 1 < s.totalItems
    requires s.scrollType.ShiftsByOne(s.currentMenuIndex + 1 >= s.totalItems)
    ensures var r := s.StepDown(); var t := r.state;
            r.shifted
            && t.minItem == (s.minItem + 1) % s.totalItems
            && t.maxItem == (s.maxItem + 1) % s.totalItems
            && (t.maxItem - t.minItem) % s.totalItems == (s.maxItem - s.minItem) % s.totalItems
            && t.scaleformIndex == s.itemsPerPage - 1
  {
    WrapIsModular(s.minItem, s.totalItems);
    WrapIsModular(s.maxItem, s.totalItems);
    WrapKeepsSpan(s.minItem, s.maxItem, s.totalItems);
  }

  /** Under Paginated scrolling, and under Classic scrolling when the cursor
      wrapped to the first item, the window jumps to the whole page of the
      new cursor, which it contains, and the cursor takes the top slot. */
  lemma StepDownPageJump(s: PaginationState)
    requires s.itemsPerPage >= 1 && s.totalItems >= 1
    requires 0 <= s.currentMenuIndex < s.totalItems
    requires s.itemsPerPage - 1 < s.scaleformIndex + 1 < s.totalItems
    requires !s.scrollType.ShiftsByOne(s.currentMenuIndex + 1 >= s.totalItems)
    ensures var r := s.StepDown(); var t := r.state;
            r.shifted
            && t.minItem == t.CurrentPageStartIndex() && t.maxItem == t.CurrentPageEndIndex()
            && 0 <= t.minItem <= t.currentMenuIndex <= t.maxItem < s.totalItems
            && t.maxItem - t.minItem + 1 == t.GetPageItemsCount(t.currentPage)
            && (s.scrollType == Classic ==> t.currentMenuIndex == 0 && t.minItem == 0)
            && t.scaleformIndex == 0
  {
    var t := s.StepDown().state;
    SplitRoundTrip(t, t.currentMenuIndex);
    FloorBracket(t.currentMenuIndex, t.itemsPerPage);
    EndIndexCases(t);
    if t.currentMenuIndex == 0 {
      PageOfIndex(t, 0, 0);
    }
  }

  /** `GoDown` keeps a consistent state consistent. */
  lemma StepDownKeepsValid(s: PaginationState)
    requires s.Valid()
    ensures s.StepDown().state.Valid()
  {
    StepDownCursor(s);
    var t := s.StepDown().state;
    var overflow := s.currentMenuIndex + 1 >= s.totalItems;
    if s.scaleformIndex + 1 >= s.totalItems {
      // the whole collection fits in one page, so every item is on page 0
      PageOfIndex(s, s.currentMenuIndex, 0);
      PageOfIndex(s, t.currentMenuIndex, 0);
    } else if s.scaleformIndex + 1 > s.itemsPerPage - 1 {
      if s.scrollType.ShiftsByOne(overflow) {
        StepDownOneShift(s);
      } else {
        StepDownPageJump(s);
      }
    }
  }

  // ---------------------------------------------------------------------
  // The two moves together

  /** From a consistent state, a `GoUp` that leaves the window in place is
      undone by a `GoDown`, which leaves it in place too. */
  lemma DownUndoesUp(s: PaginationState)
    requires s.Valid() && !s.StepUp().shifted
    ensures s.StepUp().state.StepDown() == Step(s, false)
  {
    var t := s.StepUp().state;
    if s.totalItems <= s.itemsPerPage {
      PageOfIndex(s, s.currentMenuIndex, 0);
      PageOfIndex(s, t.currentMenuIndex, 0);
    }
  }

  /** From a consistent state, a `GoDown` that leaves the window in place is
      undone by a `GoUp`, which leaves it in place too. */
  lemma UpUndoesDown(s: PaginationState)
    requires s.Valid() && !s.StepDown().shifted
    ensures s.StepDown().state.StepUp() == Step(s, false)
  {
    var t := s.StepDown().state;
    if s.totalItems <= s.itemsPerPage {
      PageOfIndex(s, s.currentMenuIndex, 0);
      PageOfIndex(s, t.currentMenuIndex, 0);
    }
  }

  /** The state after `n` calls of `GoDown`; the configuration never
      changes. */
  function Downs(s: PaginationState, n: nat): (r: PaginationState)
    requires s.itemsPerPage >= 1 && s.totalItems >= 1
    ensures r.itemsPerPage == s.itemsPerPage && r.totalItems == s.totalItems
    ensures r.scrollType == s.scrollType
  {
    if n == 0 then s else Downs(s, n - 1).StepDown().state
  }

  /** The state after `n` calls of `GoUp`; the configuration never
      changes. */
  function Ups(s: PaginationState, n: nat): (r: PaginationState)
    requires s.itemsPerPage >= 1 && s.totalItems >= 1
    ensures r.itemsPerPage == s.itemsPerPage && r.totalItems == s.totalItems
    ensures r.scrollType == s.scrollType
  {
    if n == 0 then s else Ups(s, n - 1).StepUp().state
  }

  /** Up to a full turn, `n` calls of `GoDown` advance the cursor by `n`,
      wrapping once past the last item; `totalItems` calls bring it back to
      where it started, whatever the scrolling type. */
  lemma {:induction false} DownsCursor(s: PaginationState, n: nat)
    requires s.itemsPerPage >= 1 && s.totalItems >= 1
    requires 0 <= s.currentMenuIndex < s.totalItems && n <= s.totalItems
    ensures Downs(s, n).currentMenuIndex ==
              if s.currentMenuIndex + n < s.totalItems then s.currentMenuIndex + n
              else s.currentMenuIndex + n - s.totalItems
    ensures n == s.totalItems ==> Downs(s, n).currentMenuIndex == s.currentMenuIndex
  {
    if n > 0 {
      DownsCursor(s, n - 1);
    }
  }

  /** Up to a full turn, `n` calls of `GoUp` move the cursor back by `n`,
      wrapping once past item 0; `totalItems` calls bring it back to where it
      started, whatever the scrolling type. */
  lemma {:induction false} UpsCursor(s: PaginationState, n: nat)
    requires s.itemsPerPage >= 1 && s.totalItems >= 1
    requires 0 <= s.currentMenuIndex < s.totalItems && n <= s.totalItems
    ensures Ups(s, n).currentMenuIndex ==
              if s.currentMenuIndex - n >= 0 then s.currentMenuIndex - n
              else s.currentMenuIndex - n + s.totalItems
    ensures n == s.totalItems ==> Ups(s, n).currentMenuIndex == s.currentMenuIndex
  {
    if n > 0 {
      UpsCursor(s, n - 1);
    }
  }

  /** Any number of `GoDown` calls keeps a consistent state consistent. */
  lemma {:induction false} DownsKeepValid(s: PaginationState, n: nat)
    requires s.Valid()
    ensures Downs(s, n).Valid()
  {
    if n > 0 {
      DownsKeepValid(s, n - 1);
      StepDownKeepsValid(Downs(s, n - 1));
    }
  }

  /** Any number of `GoUp` calls keeps a consistent state consistent. */
  lemma {:induction false} UpsKeepValid(s: PaginationState, n: nat)
    requires s.Valid()
    ensures Ups(s, n).Valid()
  {
    if n > 0 {
      UpsKeepValid(s, n - 1);
      StepUpKeepsValid(Ups(s, n - 1));
    }
  }

  // ---------------------------------------------------------------------
  // Shifting windows follow the cursor

  /** The window holds `itemsPerPage` consecutive items, cyclically from
      `minItem`, and the cursor is the item `scaleformIndex` places after
      `minItem`, cyclically. Both are written without `%`: an item past the
      end of the collection is counted from item 0 again. */
  predicate CyclicWindow(s: PaginationState) {
    (s.maxItem == s.minItem + s.itemsPerPage - 1 ||
     s.maxItem == s.minItem + s.itemsPerPage - 1 - s.totalItems) &&
    (s.currentMenuIndex == s.minItem + s.scaleformIndex ||
     s.currentMenuIndex == s.minItem + s.scaleformIndex - s.totalItems)
  }

  /** The view kept by the scrolling types that shift the window one item at
      a time, on a collection larger than a page: Infinite always, and
      Classic on a collection of whole pages, where its wrap-around jump
      lands on a full page. */
  predicate ShiftedView(s: PaginationState) {
    s.Valid() && s.totalItems > s.itemsPerPage &&
    (s.scrollType == Infinite || (s.scrollType == Classic && s.totalItems % s.itemsPerPage == 0)) &&
    CyclicWindow(s)
  }

  /** `GoUp` keeps the shifted view, and moves the window exactly when the
      cursor was in the top slot. */
  lemma ShiftedUpKeepsView(s: PaginationState)
    requires ShiftedView(s)
    ensures ShiftedView(s.StepUp().state)
    ensures s.StepUp().shifted <==> s.scaleformIndex == 0
  {
    StepUpKeepsValid(s);
    var t := s.StepUp().state;
    if s.scaleformIndex == 0 && !s.scrollType.ShiftsByOne(s.currentMenuIndex - 1 < 0) {
      StepUpPageJump(s);
      EndIndexCases(t);
    }
  }

  /** `GoDown` keeps the shifted view, and moves the window exactly when the
      cursor was in the bottom slot. */
  lemma ShiftedDownKeepsView(s: PaginationState)
    requires ShiftedView(s)
    ensures ShiftedView(s.StepDown().state)
    ensures s.StepDown().shifted <==> s.scaleformIndex == s.itemsPerPage - 1
  {
    StepDownKeepsValid(s);
    var t := s.StepDown().state;
    if s.scaleformIndex == s.itemsPerPage - 1 && !s.scrollType.ShiftsByOne(s.currentMenuIndex + 1 >= s.totalItems) {
      StepDownPageJump(s);
      EndIndexCases(t);
    }
  }

  /** On a collection that fits in one page, whatever the scrolling type, the
      slot is the cursor itself; both moves keep this and never move the
      window. */
  predicate SmallView(s: PaginationState) {
    s.Valid() && s.totalItems <= s.itemsPerPage && s.scaleformIndex == s.currentMenuIndex
  }

  /** `GoUp` keeps the one-page view and leaves the window in place. */
  lemma SmallUpKeepsView(s: PaginationState)
    requires SmallView(s)
    ensures SmallView(s.StepUp().state) && !s.StepUp().shifted
  {
    StepUpKeepsValid(s);
  }

  /** `GoDown` keeps the one-page view and leaves the window in place. */
  lemma SmallDownKeepsView(s: PaginationState)
    requires SmallView(s)
    ensures SmallView(s.StepDown().state) && !s.StepDown().shifted
  {
    StepDownKeepsValid(s);
  }

  // ---------------------------------------------------------------------
  // Paginated scrolling shows whole pages

  /** A Paginated view: a consistent state on a collection larger than a
      page, whose window is the cursor's page and whose slot is the cursor's
      in-page position. */
  predicate PagedView(s: PaginationState) {
    s.Valid() && s.scrollType == Paginated && s.totalItems > s.itemsPerPage
    && s.scaleformIndex == s.currentPageIndex
    && s.minItem == s.CurrentPageStartIndex() && s.maxItem == s.CurrentPageEndIndex()
  }

  /** On a collection larger than a page, a cursor that is the last item of
      the collection or the last position of its page is the end index of
      its page. */
  lemma CursorAtPageEnd(t: PaginationState)
    requires t.itemsPerPage >= 1 && t.totalItems > t.itemsPerPage
    requires 0 <= t.currentMenuIndex < t.totalItems && t.currentPage == t.GetPage(t.currentMenuIndex)
    requires t.currentMenuIndex == t.totalItems - 1
             || t.GetPageIndexFromMenuIndex(t.currentMenuIndex) == t.itemsPerPage - 1
    ensures t.currentMenuIndex == t.CurrentPageEndIndex()
  {
    var k, m, p := t.itemsPerPage, t.currentMenuIndex, t.currentPage;
    SplitRoundTrip(t, m);
    FloorBracket(m, k);
    TotalPagesBracket(t);
    var q := t.TotalPages();
    assert t.totalItems == q * k + t.totalItems % k;
    if t.totalItems % k != 0 && p == q {
      PartialLastPage(t);
      FloorBracket(t.totalItems - 1, k);
    } else if m == t.totalItems - 1 && t.GetPageIndexFromMenuIndex(m) != k - 1 {
      if t.totalItems % k == 0 {
        assert q * k == (q - 1) * k + k;
        PageRoundTrip(t, q - 1, k - 1);
        assert false;
      } else {
        FloorUnique(m, k, q);
        assert false;
      }
    }
  }

  /** `GoUp` keeps a Paginated view, and moves the window exactly when the
      cursor was on the first position of its page. */
  lemma PagedUpKeepsView(s: PaginationState)
    requires PagedView(s)
    ensures PagedView(s.StepUp().state)
    ensures s.StepUp().shifted <==> s.currentPageIndex == 0
  {
    StepUpKeepsValid(s);
    if s.currentPageIndex == 0 {
      PagedUpJump(s);
    } else {
      var p := s.currentPage;
      SplitRoundTrip(s, s.currentMenuIndex);
      PageRoundTrip(s, p, s.currentPageIndex - 1);
    }
  }

  /** From the first position of a page, `GoUp` in a Paginated view lands
      on the last item of the previous page (or of the collection), the end
      of the page the window jumps to. */
  lemma PagedUpJump(s: PaginationState)
    requires PagedView(s) && s.currentPageIndex == 0
    ensures var t := s.StepUp().state;
            t.currentMenuIndex == t.CurrentPageEndIndex()
            && t.scaleformIndex == t.currentPageIndex
            && t.minItem == t.CurrentPageStartIndex() && t.maxItem == t.CurrentPageEndIndex()
  {
    var m := s.currentMenuIndex;
    var t := s.StepUp().state;
    StepUpPageJump(s);
    if m != 0 {
      // the cursor moves to the last item of the previous page
      BeforePageStart(s, m);
    }
    CursorAtPageEnd(t);
  }

  /** The item just before the first item of a page is the last position
      of the previous page. */
  lemma BeforePageStart(s: PaginationState, m: int)
    requires s.itemsPerPage >= 1 && s.GetPageIndexFromMenuIndex(m) == 0
    ensures s.GetPageIndexFromMenuIndex(m - 1) == s.itemsPerPage - 1
  {
    var k, p := s.itemsPerPage, s.GetPage(m);
    SplitRoundTrip(s, m);
    assert (p - 1) * k + (k - 1) == m - 1;
    PageRoundTrip(s, p - 1, k - 1);
  }

  /** `GoDown` keeps a Paginated view when the collection is a whole number
      of pages, and moves the window exactly when the cursor was on the last
      position of its page. */
  lemma PagedDownKeepsView(s: PaginationState)
    requires PagedView(s) && s.totalItems % s.itemsPerPage == 0
    ensures PagedView(s.StepDown().state)
    ensures s.StepDown().shifted <==> s.currentPageIndex == s.itemsPerPage - 1
  {
    var k, m, p := s.itemsPerPage, s.currentMenuIndex, s.currentPage;
    StepDownKeepsValid(s);
    SplitRoundTrip(s, m);
    if s.currentPageIndex == k - 1 {
      StepDownPageJump(s);
      if m + 1 < s.totalItems {
        assert (p + 1) * k + 0 == m + 1;
        PageRoundTrip(s, p + 1, 0);
      } else {
        PageOfIndex(s, 0, 0);
      }
    } else {
      // the last item of the collection ends a full page, so the cursor
      // stays inside the collection and on its page
      FullPageInside(s);
      assert (p + 1) * k == p * k + k;
      PageRoundTrip(s, p, s.currentPageIndex + 1);
    }
  }
}
