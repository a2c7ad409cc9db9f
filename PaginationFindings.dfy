/** Where the handler's window and its window queries disagree with what
    the window is meant to be. The visibility test and the slot-to-item
    mapping each come with a concrete input showing the code as written, and
    a wrap-aware definition with the intended property proved. The slot
    query is read on the shifted window, where it adds missing slots that
    window does not have; and Classic scrolling on a partial last page is
    shown leaving the cursor outside the window. */
module PaginationFindings {
  import opened IndexMath
  import opened Pagination
  import opened PaginationProperties

  /** The window holds item `m`: its cyclic range from `minItem` to `maxItem`,
      which passes through the end of the collection when `minItem` is the
      larger bound. */
  predicate InWindow(s: PaginationState, menuIndex: int) {
    0 <= menuIndex < s.totalItems &&
    if s.minItem <= s.maxItem then s.minItem <= menuIndex <= s.maxItem
    else menuIndex >= s.minItem || menuIndex <= s.maxItem
  }

  /** `InWindow` is the cyclic reading of the window: an item is in it
      exactly when its cyclic offset from the window start does not pass
      the window's cyclic span. */
  lemma InWindowIsCyclicOffset(s: PaginationState, menuIndex: int)
    requires 0 <= s.minItem < s.totalItems && 0 <= s.maxItem < s.totalItems
    requires 0 <= menuIndex < s.totalItems
    ensures InWindow(s, menuIndex) <==>
              (menuIndex - s.minItem) % s.totalItems <= (s.maxItem - s.minItem) % s.totalItems
  {
    var n, lo, hi, m := s.totalItems, s.minItem, s.maxItem, menuIndex;
    if lo <= hi {
      ModUnique(hi - lo, n, 0, hi - lo);
    } else {
      ModUnique(hi - lo, n, -1, hi - lo + n);
    }
    if lo <= m {
      ModUnique(m - lo, n, 0, m - lo);
    } else {
      ModUnique(m - lo, n, -1, m - lo + n);
    }
  }

  /** As written, `IsItemVisible` never misses an item of the window. On a
      wrapped window it is exact; on a window that does not wrap it holds of
      every item, whatever the window. */
  lemma IsItemVisibleVersusWindow(s: PaginationState, menuIndex: int)
    requires 0 <= s.minItem < s.totalItems && 0 <= s.maxItem < s.totalItems
    requires 0 <= menuIndex < s.totalItems
    ensures InWindow(s, menuIndex) ==> s.IsItemVisible(menuIndex)
    ensures s.maxItem < s.minItem ==> (s.IsItemVisible(menuIndex) <==> InWindow(s, menuIndex))
    ensures s.minItem <= s.maxItem ==> s.IsItemVisible(menuIndex)
  {
  }

  /** Ten items, window 5..9: items 7 and 2 are both reported visible, and
      only 7 is in the window. */
  lemma IsItemVisibleOverReports()
    ensures var s := PaginationState(0, 7, 1, 5, 5, 9, 10, 2, Classic);
            s.IsItemVisible(7) && InWindow(s, 7) && s.IsItemVisible(2) && !InWindow(s, 2)
  {
  }

  /** A window that holds one whole page of consecutive items, possibly
      passing through the end of the collection. */
  predicate FullWindow(s: PaginationState) {
    s.itemsPerPage >= 1 && s.totalItems >= 1 &&
    0 <= s.minItem < s.totalItems && 0 <= s.maxItem < s.totalItems &&
    (s.maxItem == s.minItem + s.itemsPerPage - 1 ||
     s.maxItem == s.minItem + s.itemsPerPage - 1 - s.totalItems)
  }

  /** The item in window slot `slot`: the slot, less the missing slots of a
      partial page, counted cyclically from the window start. */
  function MenuIndexAtSlot(s: PaginationState, slot: int): (menuIndex: int)
    requires s.totalItems >= 1
    ensures 0 <= menuIndex < s.totalItems
  {
    (s.minItem + slot - s.GetMissingItems()) % s.totalItems
  }

  /** The slot of an item of the window is its cyclic offset from the window
      start, plus the missing slots; on a full window that offset is a
      window position. */
  lemma SlotOfWindowItem(s: PaginationState, menuIndex: int)
    requires FullWindow(s) && InWindow(s, menuIndex)
    ensures s.GetScaleformIndex(menuIndex) - s.GetMissingItems()
              == (menuIndex - s.minItem) % s.totalItems
    ensures 0 <= (menuIndex - s.minItem) % s.totalItems < s.itemsPerPage
    ensures s.GetMissingItems() <= s.GetScaleformIndex(menuIndex) < s.GetMissingItems() + s.itemsPerPage
  {
    var n, lo, m := s.totalItems, s.minItem, menuIndex;
    InWindowIsCyclicOffset(s, m);
    if lo <= m {
      ModUnique(m - lo, n, 0, m - lo);
    } else {
      ModUnique(m - lo, n, -1, m - lo + n);
    }
    if s.minItem <= s.maxItem {
      ModUnique(s.maxItem - lo, n, 0, s.maxItem - lo);
    } else {
      ModUnique(s.maxItem - lo, n, -1, s.maxItem - lo + n);
    }
  }

  /** On a full window, `MenuIndexAtSlot` undoes `GetScaleformIndex` for
      every item of the window. */
  lemma SlotRoundTrip(s: PaginationState, menuIndex: int)
    requires FullWindow(s) && InWindow(s, menuIndex)
    ensures MenuIndexAtSlot(s, s.GetScaleformIndex(menuIndex)) == menuIndex
  {
    var n, lo, m := s.totalItems, s.minItem, menuIndex;
    SlotOfWindowItem(s, m);
    if lo <= m {
      ModUnique(m, n, 0, m);
    } else {
      assert s.minItem + s.GetScaleformIndex(m) - s.GetMissingItems() == m + n;
      ModUnique(m + n, n, 1, m);
    }
  }

  /** As written, `GetMenuIndexFromScaleformIndex` compares a slot with an
      item index: ten items in pages of five, window 5..9 on the full second
      page, item 7 sits in slot 2, and slot 2 is mapped back to item 3. */
  lemma MenuIndexFromSlotMisreads()
    ensures var s := PaginationState(2, 7, 1, 5, 5, 9, 10, 2, Classic);
            FullWindow(s) && InWindow(s, 7)
            && s.GetScaleformIndex(7) == 2 && s.GetMenuIndexFromScaleformIndex(2) == 3
            && MenuIndexAtSlot(s, 2) == 7
  {
  }

  /** The shifted view read cyclically: the window is full, the cursor is in
      it at offset `scaleformIndex`, and `GetScaleformIndex` reports the
      cursor's slot plus the missing slots of the current page, even though
      a shifted window has no missing slot. */
  lemma CyclicWindowReading(s: PaginationState)
    requires s.itemsPerPage >= 1 && s.totalItems >= 1
    requires 0 <= s.minItem < s.totalItems && 0 <= s.maxItem < s.totalItems
    requires 0 <= s.currentMenuIndex < s.totalItems && 0 <= s.scaleformIndex < s.itemsPerPage
    requires s.itemsPerPage <= s.totalItems && CyclicWindow(s)
    ensures FullWindow(s) && InWindow(s, s.currentMenuIndex)
    ensures s.currentMenuIndex == (s.minItem + s.scaleformIndex) % s.totalItems
    ensures s.GetScaleformIndex(s.currentMenuIndex) == s.scaleformIndex + s.GetMissingItems()
  {
    if s.currentMenuIndex == s.minItem + s.scaleformIndex {
      ModUnique(s.minItem + s.scaleformIndex, s.totalItems, 0, s.currentMenuIndex);
    } else {
      // the cursor is before the window start, so the window wraps
      assert s.maxItem == s.minItem + s.itemsPerPage - 1 - s.totalItems;
      assert s.minItem > s.currentMenuIndex && s.maxItem >= s.currentMenuIndex;
      ModUnique(s.minItem + s.scaleformIndex, s.totalItems, 1, s.currentMenuIndex);
    }
  }

  /** Classic scrolling, seven items in pages of five, from the top: `GoUp`
      wraps to item 6 and jumps to the partial last page, window 5..6, with
      the cursor in slot 4 once the three missing slots are added. */
  lemma ClassicWrapUpStep()
    ensures PaginationState(0, 0, 0, 5, 0, 4, 7, 0, Classic).StepUp()
              == Step(PaginationState(1, 6, 1, 5, 5, 6, 7, 4, Classic), true)
  {
  }

  /** Two more `GoUp` from there leave the window on 5..6 with the cursor on
      item 4 in slot 2. */
  lemma ClassicCursorLeavesWindow()
    ensures PaginationState(1, 6, 1, 5, 5, 6, 7, 4, Classic).StepUp().state.StepUp()
              == Step(PaginationState(4, 4, 0, 5, 5, 6, 7, 2, Classic), false)
  {
    ClassicUpFromSlot4();
    ClassicUpFromSlot3();
  }

  /** The state so reached is consistent, and its cursor is not in its
      window. */
  lemma ClassicStrandedCursor()
    ensures var s := PaginationState(4, 4, 0, 5, 5, 6, 7, 2, Classic);
            s.Valid() && !InWindow(s, s.currentMenuIndex)
  {
  }

  /** The first of those two steps: item 6 to item 5, slot 4 to slot 3. */
  lemma ClassicUpFromSlot4()
    ensures PaginationState(1, 6, 1, 5, 5, 6, 7, 4, Classic).StepUp()
              == Step(PaginationState(0, 5, 1, 5, 5, 6, 7, 3, Classic), false)
  {
  }

  /** The second: item 5 to item 4 on page 0, slot 3 to slot 2, window kept. */
  lemma ClassicUpFromSlot3()
    ensures PaginationState(0, 5, 1, 5, 5, 6, 7, 3, Classic).StepUp()
              == Step(PaginationState(4, 4, 0, 5, 5, 6, 7, 2, Classic), false)
  {
  }

  /** Classic scrolling, seven items in pages of five: the sixth `GoDown`
      from the top shifts the window to 2..6, a full window, with the cursor
      on item 6 in slot 4. */
  lemma ClassicShiftDownStep()
    ensures PaginationState(0, 5, 1, 5, 1, 5, 7, 4, Classic).StepDown()
              == Step(PaginationState(1, 6, 1, 5, 2, 6, 7, 4, Classic), true)
  {
  }

  /** On that window `GetScaleformIndex` adds the three missing slots of the
      partial page the cursor is on, and reports slot 7, past the window's
      last slot 4. */
  lemma ShiftedSlotPastWindow()
    ensures var s := PaginationState(1, 6, 1, 5, 2, 6, 7, 4, Classic);
            FullWindow(s) && InWindow(s, 6) && s.GetMissingItems() == 3
            && s.GetScaleformIndex(6) == 7 && s.GetScaleformIndex(6) >= s.itemsPerPage
  {
  }
}
