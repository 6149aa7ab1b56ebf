/**
 * `getPages` of the table pagination bar
 * (apps/client/src/components/ui/table-pagination.tsx): the list of page
 * buttons and ellipses shown for the active page.
 */
module TablePagination {
  import opened Wrappers

  datatype PageData = Item(value: int) | Ellipsis

  /**
   * The window around the active page: how many pages it reaches to the
   * left and to the right of it, shifted when the active page is near an
   * end. Together they always span `pageRangeDisplayed`
   * pages; for an active page that exists both sides are non-negative.
   */
  function Sides(activePage: int, totalPages: int, pageRangeDisplayed: int): (sides: (int, int))
    requires pageRangeDisplayed % 2 == 0
    ensures sides.0 + sides.1 == pageRangeDisplayed
    ensures 0 <= pageRangeDisplayed && 1 <= activePage <= totalPages ==> 0 <= sides.0 && 0 <= sides.1
  {
    var half := pageRangeDisplayed / 2;
    if activePage > totalPages - half then (pageRangeDisplayed - (totalPages - activePage), totalPages - activePage)
    else if activePage < half then (activePage, pageRangeDisplayed - activePage)
    else (half, pageRangeDisplayed - half)
  }

  /** Whether page `page` gets a button of its own. */
  predicate Displayed(page: int, activePage: int, totalPages: int, pageRangeDisplayed: int, boundaryPageButtons: int)
    requires pageRangeDisplayed % 2 == 0
  {
    var sides := Sides(activePage, totalPages, pageRangeDisplayed);
    && 1 <= page <= totalPages
    && (|| totalPages <= pageRangeDisplayed
        || page <= boundaryPageButtons
        || page > totalPages - boundaryPageButtons
        || activePage - sides.0 <= page <= activePage + sides.1)
  }

  /** Page buttons come in increasing order. */
  predicate Ascending(items: seq<PageData>)
  {
    forall i, j :: 0 <= i < j < |items| && items[i].Item? && items[j].Item? ==> items[i].value < items[j].value
  }

  predicate NoAdjacentEllipses(items: seq<PageData>)
  {
    forall i :: 0 <= i < |items| - 1 ==> items[i].Item? || items[i + 1].Item?
  }

  /** Neighbouring buttons show neighbouring pages; an ellipsis between two buttons hides at least one page. */
  predicate EllipsesMarkGaps(items: seq<PageData>)
  {
    && (forall i :: 0 <= i < |items| - 1 && items[i].Item? && items[i + 1].Item? ==>
          items[i + 1].value == items[i].value + 1)
    && (forall i :: 1 <= i < |items| - 1 && items[i].Ellipsis? && items[i - 1].Item? && items[i + 1].Item? ==>
          items[i + 1].value > items[i - 1].value + 1)
  }

  /** `items` is what the pass over the pages has built once pages 1 to `page - 1` are done. */
  ghost predicate LaidOut(items: seq<PageData>, page: int, activePage: int, totalPages: int,
                          pageRangeDisplayed: int, boundaryPageButtons: int)
    requires pageRangeDisplayed % 2 == 0
  {
    && (forall p :: Item(p) in items <==>
          1 <= p < page && Displayed(p, activePage, totalPages, pageRangeDisplayed, boundaryPageButtons))
    && (forall i :: 0 <= i < |items| && items[i].Item? ==> items[i].value < page)
    && Ascending(items) && NoAdjacentEllipses(items) && EllipsesMarkGaps(items)
    && (page == 1 <==> items == [])
    && (page > 1 ==> items[0] == Item(1))
    && (page > 1 ==>
          items[|items| - 1] ==
            if Displayed(page - 1, activePage, totalPages, pageRangeDisplayed, boundaryPageButtons)
            then Item(page - 1) else Ellipsis)
  }

  predicate WellShaped(items: seq<PageData>)
  {
    Ascending(items) && NoAdjacentEllipses(items) && EllipsesMarkGaps(items)
  }

  /** A button for page `v` may follow the button of `v - 1`, or an ellipsis after a button below `v - 1`. */
  lemma AppendItemShape(items: seq<PageData>, v: int)
    requires WellShaped(items)
    requires forall i :: 0 <= i < |items| && items[i].Item? ==> items[i].value < v
    requires |items| > 0 && items[|items| - 1].Item? ==> items[|items| - 1].value == v - 1
    requires |items| > 1 && items[|items| - 1].Ellipsis? ==> items[|items| - 2].value < v - 1
    ensures WellShaped(items + [Item(v)])
  {
  }

  /** An ellipsis may follow a button. */
  lemma AppendEllipsisShape(items: seq<PageData>)
    requires WellShaped(items)
    requires |items| > 0 && items[|items| - 1].Item?
    ensures WellShaped(items + [Ellipsis])
  {
  }

  /** A displayed page gets its button at the end. */
  lemma PushShown(items: seq<PageData>, page: int, activePage: int, totalPages: int,
                  pageRangeDisplayed: int, boundaryPageButtons: int)
    requires pageRangeDisplayed % 2 == 0 && 1 <= page
    requires LaidOut(items, page, activePage, totalPages, pageRangeDisplayed, boundaryPageButtons)
    requires Displayed(page, activePage, totalPages, pageRangeDisplayed, boundaryPageButtons)
    ensures LaidOut(items + [Item(page)], page + 1, activePage, totalPages, pageRangeDisplayed, boundaryPageButtons)
  {
    var next := items + [Item(page)];
    forall p ensures Item(p) in next <==> Item(p) in items || p == page {
      assert Item(p) in next <==> Item(p) in items || Item(p) == next[|items|];
    }
    if |items| > 1 && items[|items| - 1].Ellipsis? {
      var u := items[|items| - 2].value;
      assert Item(u) in items;
    }
    AppendItemShape(items, page);
  }

  /** A hidden page after a button opens an ellipsis. */
  lemma PushHidden(items: seq<PageData>, page: int, activePage: int, totalPages: int,
                   pageRangeDisplayed: int, boundaryPageButtons: int)
    requires pageRangeDisplayed % 2 == 0 && 1 < page
    requires LaidOut(items, page, activePage, totalPages, pageRangeDisplayed, boundaryPageButtons)
    requires !Displayed(page, activePage, totalPages, pageRangeDisplayed, boundaryPageButtons)
    requires items[|items| - 1] != Ellipsis
    ensures LaidOut(items + [Ellipsis], page + 1, activePage, totalPages, pageRangeDisplayed, boundaryPageButtons)
  {
    var next := items + [Ellipsis];
    forall p ensures Item(p) in next <==> Item(p) in items {
      assert Item(p) in next <==> Item(p) in items || Item(p) == next[|items|];
    }
    AppendEllipsisShape(items);
  }

  /** A hidden page after an ellipsis adds nothing. */
  lemma SkipHidden(items: seq<PageData>, page: int, activePage: int, totalPages: int,
                   pageRangeDisplayed: int, boundaryPageButtons: int)
    requires pageRangeDisplayed % 2 == 0 && 1 < page
    requires LaidOut(items, page, activePage, totalPages, pageRangeDisplayed, boundaryPageButtons)
    requires !Displayed(page, activePage, totalPages, pageRangeDisplayed, boundaryPageButtons)
    requires items[|items| - 1] == Ellipsis
    ensures LaidOut(items, page + 1, activePage, totalPages, pageRangeDisplayed, boundaryPageButtons)
  {
  }

  /** The branch taken when every page fits the range: every page from 1 to `totalPages`, in order. */
  method AllPages(totalPages: int) returns (items: seq<PageData>)
    ensures items == seq(if totalPages < 0 then 0 else totalPages, i => Item(i + 1))
  {
    items := [];
    var page := 1;
    while page <= totalPages
      invariant 1 <= page <= (if totalPages < 1 then 1 else totalPages + 1)
      invariant items == seq(page - 1, i => Item(i + 1))
    {
      items := items + [Item(page)];
      page := page + 1;
    }
  }

  /** When every page is displayed, the list of all pages is laid out as `getPages` promises. */
  lemma AllPagesLaidOut(totalPages: int, activePage: int, pageRangeDisplayed: int, boundaryPageButtons: int)
    requires pageRangeDisplayed % 2 == 0 && totalPages <= pageRangeDisplayed
    ensures LaidOut(seq(if totalPages < 0 then 0 else totalPages, i => Item(i + 1)),
                    if totalPages < 0 then 1 else totalPages + 1,
                    activePage, totalPages, pageRangeDisplayed, boundaryPageButtons)
  {
    var items := seq(if totalPages < 0 then 0 else totalPages, i => Item(i + 1));
    forall p ensures Item(p) in items <==> 1 <= p <= totalPages {
      if 1 <= p <= totalPages {
        assert items[p - 1] == Item(p);
      }
    }
  }

  /**
   * The branch taken when not every page fits the range: the
   * window sides, then one pass over the pages. `None` is the `TypeError`
   * the source throws when page 1 is hidden and it reads the last entry of
   * the still empty list.
   */
  method WindowedPages(activePage: int, totalPages: int, pageRangeDisplayed: int, boundaryPageButtons: int)
    returns (r: Option<seq<PageData>>)
    requires pageRangeDisplayed % 2 == 0 && totalPages > pageRangeDisplayed
    ensures r.None? <==> totalPages >= 1 && !Displayed(1, activePage, totalPages, pageRangeDisplayed, boundaryPageButtons)
    ensures r.Some? ==>
      LaidOut(r.value, if totalPages < 1 then 1 else totalPages + 1,
              activePage, totalPages, pageRangeDisplayed, boundaryPageButtons)
  {
    var leftSide := pageRangeDisplayed / 2;
    var rightSide := pageRangeDisplayed - leftSide;
    if activePage > totalPages - pageRangeDisplayed / 2 {
      rightSide := totalPages - activePage;
      leftSide := pageRangeDisplayed - rightSide;
    } else if activePage < pageRangeDisplayed / 2 {
      leftSide := activePage;
      rightSide := pageRangeDisplayed - leftSide;
    }
    assert (leftSide, rightSide) == Sides(activePage, totalPages, pageRangeDisplayed);

    var items: seq<PageData> := [];
    var page := 1;
    assert LaidOut(items, page, activePage, totalPages, pageRangeDisplayed, boundaryPageButtons);
    while page <= totalPages
      invariant 1 <= page && (page <= totalPages + 1 || page == 1)
      invariant LaidOut(items, page, activePage, totalPages, pageRangeDisplayed, boundaryPageButtons)
    {
      var next := VisitPage(items, page, activePage, totalPages, pageRangeDisplayed, boundaryPageButtons,
                            leftSide, rightSide);
      if next.None? {
        return None;
      }
      items := next.value;
      page := page + 1;
    }
    if totalPages >= 1 {
      assert Item(1) in items;
    }
    return Some(items);
  }

  /**
   * One step of the pass over the pages: page `page` gets a button when it
   * is displayed; a hidden page opens an ellipsis unless one is already
   * open. `None` when the list is still empty at a hidden page.
   */
  method VisitPage(items: seq<PageData>, page: int, activePage: int, totalPages: int,
                   pageRangeDisplayed: int, boundaryPageButtons: int, leftSide: int, rightSide: int)
    returns (next: Option<seq<PageData>>)
    requires pageRangeDisplayed % 2 == 0 && totalPages > pageRangeDisplayed && 1 <= page <= totalPages
    requires (leftSide, rightSide) == Sides(activePage, totalPages, pageRangeDisplayed)
    requires LaidOut(items, page, activePage, totalPages, pageRangeDisplayed, boundaryPageButtons)
    ensures next.None? <==> items == [] && !Displayed(page, activePage, totalPages, pageRangeDisplayed, boundaryPageButtons)
    ensures next.Some? ==>
      LaidOut(next.value, page + 1, activePage, totalPages, pageRangeDisplayed, boundaryPageButtons)
  {
    ghost var shown := Displayed(page, activePage, totalPages, pageRangeDisplayed, boundaryPageButtons);
    assert shown <==> page <= totalPages &&
                      (|| page <= boundaryPageButtons
                       || page > totalPages - boundaryPageButtons
                       || (page >= activePage - leftSide && page <= activePage + rightSide));
    if page <= boundaryPageButtons {
      PushShown(items, page, activePage, totalPages, pageRangeDisplayed, boundaryPageButtons);
      next := Some(items + [Item(page)]);
    } else if page > totalPages - boundaryPageButtons {
      PushShown(items, page, activePage, totalPages, pageRangeDisplayed, boundaryPageButtons);
      next := Some(items + [Item(page)]);
    } else if page >= activePage - leftSide && page <= activePage + rightSide {
      PushShown(items, page, activePage, totalPages, pageRangeDisplayed, boundaryPageButtons);
      next := Some(items + [Item(page)]);
    } else if |items| == 0 {
      // there is no last entry to look at, and the source throws
      next := None;
    } else if items[|items| - 1] != Ellipsis {
      PushHidden(items, page, activePage, totalPages, pageRangeDisplayed, boundaryPageButtons);
      next := Some(items + [Ellipsis]);
    } else {
      SkipHidden(items, page, activePage, totalPages, pageRangeDisplayed, boundaryPageButtons);
      next := Some(items);
    }
  }

  /** Once every page has been visited, the laid-out list has the shape `getPages` promises. */
  lemma LaidOutComplete(items: seq<PageData>, activePage: int, totalPages: int,
                        pageRangeDisplayed: int, boundaryPageButtons: int)
    requires pageRangeDisplayed % 2 == 0 && totalPages >= 1
    requires LaidOut(items, totalPages + 1, activePage, totalPages, pageRangeDisplayed, boundaryPageButtons)
    ensures forall p :: Item(p) in items <==> Displayed(p, activePage, totalPages, pageRangeDisplayed, boundaryPageButtons)
    ensures WellShaped(items)
    ensures |items| > 0 && items[0] == Item(1)
    ensures items[|items| - 1] ==
      if Displayed(totalPages, activePage, totalPages, pageRangeDisplayed, boundaryPageButtons)
      then Item(totalPages) else Ellipsis
  {
  }

  /**
   * The list of page buttons and ellipses for the active page.
   * `None` is the `TypeError` the source throws when page 1 is hidden.
   * Otherwise the list holds a button for exactly the displayed pages, in
   * order, starts with page 1, and puts one ellipsis in each gap.
   */
  method GetPages(activePage: int, totalPages: int, pageRangeDisplayed: int, boundaryPageButtons: int)
    returns (r: Option<seq<PageData>>)
    requires pageRangeDisplayed % 2 == 0
    ensures r.None? <==>
      totalPages > pageRangeDisplayed && totalPages >= 1 &&
      !Displayed(1, activePage, totalPages, pageRangeDisplayed, boundaryPageButtons)
    ensures r.Some? ==> forall p :: Item(p) in r.value <==>
      Displayed(p, activePage, totalPages, pageRangeDisplayed, boundaryPageButtons)
    ensures r.Some? ==> Ascending(r.value) && NoAdjacentEllipses(r.value) && EllipsesMarkGaps(r.value)
    ensures r.Some? && totalPages < 1 ==> r.value == []
    ensures r.Some? && totalPages >= 1 ==>
      && |r.value| > 0
      && r.value[0] == Item(1)
      && r.value[|r.value| - 1] ==
           if Displayed(totalPages, activePage, totalPages, pageRangeDisplayed, boundaryPageButtons)
           then Item(totalPages) else Ellipsis
    ensures totalPages <= pageRangeDisplayed ==>
      r == Some(seq(if totalPages < 0 then 0 else totalPages, i => Item(i + 1)))
  {
    if totalPages <= pageRangeDisplayed {
      var items := AllPages(totalPages);
      AllPagesLaidOut(totalPages, activePage, pageRangeDisplayed, boundaryPageButtons);
      if totalPages >= 1 {
        LaidOutComplete(items, activePage, totalPages, pageRangeDisplayed, boundaryPageButtons);
      }
      return Some(items);
    }
    r := WindowedPages(activePage, totalPages, pageRangeDisplayed, boundaryPageButtons);
    if r.Some? && totalPages >= 1 {
      LaidOutComplete(r.value, activePage, totalPages, pageRangeDisplayed, boundaryPageButtons);
    }
  }

  /** With at least one boundary button, the first and the last page are always displayed. */
  lemma BoundaryPagesDisplayed(activePage: int, totalPages: int, pageRangeDisplayed: int, boundaryPageButtons: int)
    requires pageRangeDisplayed % 2 == 0 && boundaryPageButtons >= 1 && totalPages >= 1
    ensures Displayed(1, activePage, totalPages, pageRangeDisplayed, boundaryPageButtons)
    ensures Displayed(totalPages, activePage, totalPages, pageRangeDisplayed, boundaryPageButtons)
  {
  }

  /** An active page that exists is displayed. */
  lemma ActivePageDisplayed(activePage: int, totalPages: int, pageRangeDisplayed: int, boundaryPageButtons: int)
    requires pageRangeDisplayed % 2 == 0 && pageRangeDisplayed >= 0 && 1 <= activePage <= totalPages
    ensures Displayed(activePage, activePage, totalPages, pageRangeDisplayed, boundaryPageButtons)
  {
  }

  /**
   * The call the pagination bar makes, with only the page and the page count
   * given, so with the default range 2 and one boundary button: it never throws, shows the active
   * page, and runs from page 1 to the last page.
   */
  method BarPages(page: int, totalPages: int) returns (items: seq<PageData>)
    ensures forall p :: Item(p) in items <==> Displayed(p, page, totalPages, 2, 1)
    ensures WellShaped(items)
    ensures 1 <= page <= totalPages ==> Item(page) in items
    ensures totalPages >= 1 ==> |items| > 0 && items[0] == Item(1) && items[|items| - 1] == Item(totalPages)
    ensures totalPages < 1 ==> items == []
  {
    if totalPages >= 1 {
      BoundaryPagesDisplayed(page, totalPages, 2, 1);
    }
    if 1 <= page <= totalPages {
      ActivePageDisplayed(page, totalPages, 2, 1);
    }
    var r := GetPages(page, totalPages, 2, 1);
    items := r.value;
  }
}
