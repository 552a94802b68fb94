/**
 Cursor pagination over a list that changes between fetches.

 Rows are numbered by their place in the total order the query sorts by, so a list is a strictly
 increasing sequence, and a row's number stands for its id. A row can be deleted, or stay in the
 table and leave the list because the filter no longer admits it; the cursor row is looked up in
 the table, without the filter.
 */
module Pagination {
  import opened Options
  import opened Integers

  /** What a fetch finds: the rows the filter admits, in order, and the other rows of the table. */
  datatype View = View(list: seq<int>, hidden: set<int>)

  datatype Page = Page(data: seq<int>, cursor: Option<int>)

  predicate Sorted(list: seq<int>) {
    forall i, j :: 0 <= i < j < |list| ==> list[i] < list[j]
  }

  function Take(list: seq<int>, n: nat): seq<int> {
    if |list| <= n then list else list[..n]
  }

  /** `skip: 1` */
  function SkipOne(list: seq<int>): seq<int> {
    if list == [] then [] else list[1..]
  }

  /** The rows placed at or after the given one. */
  function From(list: seq<int>, row: int): seq<int> {
    if list == [] || list[0] >= row then list else From(list[1..], row)
  }

  /** The rows the store scans: from the place of the cursor row on, without the first; none if the table has no such row. */
  function Rest(view: View, cursor: Option<int>): seq<int> {
    match cursor
    case None => view.list
    case Some(row) => if row in view.list || row in view.hidden then SkipOne(From(view.list, row)) else []
  }

  /** The store's answer to `cursorArgs`: one row more than the page. */
  function Fetch(view: View, cursor: Option<int>, limit: nat): seq<int> {
    Take(Rest(view, cursor), limit + 1)
  }

  /** The extra row only decides whether there is a next page. */
  function Paginate(rows: seq<int>, limit: nat): Page {
    var hasMore := |rows| > limit;
    var data := if hasMore then rows[..limit] else rows;
    Page(data, if hasMore && data != [] then Some(data[|data| - 1]) else None)
  }

  function NextPage(view: View, cursor: Option<int>, limit: nat): Page {
    Paginate(Fetch(view, cursor, limit), limit)
  }

  /** Following the cursor, the k-th fetch seeing `views[k]`. */
  function Follow(views: seq<View>, cursor: Option<int>, limit: nat): seq<int> {
    if views == [] then []
    else
      var page := NextPage(views[0], cursor, limit);
      if page.cursor.None? then page.data else page.data + Follow(views[1..], page.cursor, limit)
  }

  ghost predicate AllSorted(views: seq<View>) {
    forall k :: 0 <= k < |views| ==> Sorted(views[k].list)
  }

  ghost predicate After(row: int, cursor: Option<int>) {
    cursor.Some? ==> cursor.value < row
  }

  ghost predicate SeenInOne(row: int, views: seq<View>) {
    exists k :: 0 <= k < |views| && row in views[k].list
  }

  ghost predicate SeenInAll(row: int, views: seq<View>) {
    forall k :: 0 <= k < |views| ==> row in views[k].list
  }

  // ----- one fetch -----

  lemma {:induction false} FromMeaning(list: seq<int>, row: int)
    requires Sorted(list)
    ensures Sorted(From(list, row))
    ensures forall other :: other in From(list, row) <==> other in list && row <= other
  {
    if list != [] && list[0] < row {
      FromMeaning(list[1..], row);
      assert forall other :: other in list <==> other == list[0] || other in list[1..];
    }
  }

  lemma SkipOneMeaning(list: seq<int>)
    requires Sorted(list)
    ensures Sorted(SkipOne(list))
    ensures forall row :: row in SkipOne(list) <==> row in list && row != list[0]
  {
    if list != [] { assert forall row :: row in list <==> row == list[0] || row in list[1..]; }
  }

  ghost predicate FirstAfter(list: seq<int>, cursor: int, row: int) {
    forall other :: other in list && cursor < other ==> row <= other
  }

  /** The fetch does not scan this later row: the cursor row is gone, or hidden and the row is the first after it. */
  ghost predicate Missed(view: View, cursor: Option<int>, row: int) {
    cursor.Some? && cursor.value !in view.list && (cursor.value !in view.hidden || FirstAfter(view.list, cursor.value, row))
  }

  /** Of the rows after the cursor a fetch scans exactly those not missed. */
  lemma RestMeaning(view: View, cursor: Option<int>)
    requires Sorted(view.list)
    ensures Sorted(Rest(view, cursor))
    ensures forall row :: row in Rest(view, cursor) <==> row in view.list && After(row, cursor) && !Missed(view, cursor, row)
  {
    if cursor.Some? {
      var from := From(view.list, cursor.value);
      FromMeaning(view.list, cursor.value);
      SkipOneMeaning(from);
      if from != [] {
        assert from[0] in from;
        assert forall row :: row in from ==> from[0] <= row;
      }
    }
  }

  lemma {:induction false} FirstLater(list: seq<int>, cursor: int, row: int) returns (first: int)
    requires Sorted(list) && row in list && cursor < row
    ensures first in list && cursor < first && FirstAfter(list, cursor, first)
  {
    if cursor < list[0] {
      first := list[0];
    } else {
      first := FirstLater(list[1..], cursor, row);
      assert forall other :: other in list ==> other == list[0] || other in list[1..];
    }
  }

  /** A fetch scans every later row if and only if its cursor row is in the list, or no row is later. */
  lemma RestExact(view: View, cursor: Option<int>)
    requires Sorted(view.list)
    ensures (forall row :: row in view.list && After(row, cursor) ==> row in Rest(view, cursor)) <==>
      cursor.None? || cursor.value in view.list || forall row :: row in view.list ==> row <= cursor.value
  {
    RestMeaning(view, cursor);
    if cursor.Some? && cursor.value !in view.list {
      if row :| row in view.list && cursor.value < row {
        var first := FirstLater(view.list, cursor.value, row);
        assert first !in Rest(view, cursor);
      }
    }
  }

  /** A page is the front of the rows scanned, as full as the limit allows; its cursor, if any, separates it from all it left out. */
  lemma PageMeaning(rest: seq<int>, limit: nat)
    requires limit > 0 && Sorted(rest)
    ensures var page := Paginate(Take(rest, limit + 1), limit);
      && page.data <= rest && |page.data| == Min(|rest|, limit) && (page.cursor.Some? <==> |rest| > limit)
      && (page.cursor.None? ==> page.data == rest)
      && (page.cursor.Some? ==>
            page.cursor.value in page.data
            && (forall row :: row in page.data ==> row <= page.cursor.value)
            && (forall row :: row in rest && row <= page.cursor.value ==> row in page.data))
  {
    var page := Paginate(Take(rest, limit + 1), limit);
    if |rest| > limit {
      assert page.data == rest[..limit] && page.cursor == Some(rest[limit - 1]);
      forall row | row in rest && row <= rest[limit - 1] ensures row in page.data {
        var i :| 0 <= i < |rest| && rest[i] == row;
        assert i < limit && page.data[i] == row;
      }
    }
  }

  lemma NextPageMeaning(view: View, cursor: Option<int>, limit: nat)
    requires limit > 0 && Sorted(view.list)
    ensures var page := NextPage(view, cursor, limit);
      && Sorted(page.data)
      && (forall row :: row in page.data ==> row in view.list && After(row, cursor))
      && (page.cursor.Some? ==> page.cursor.value in page.data && forall row :: row in page.data ==> row <= page.cursor.value)
  {
    RestMeaning(view, cursor);
    PageMeaning(Rest(view, cursor), limit);
    var page := NextPage(view, cursor, limit);
    forall row | row in page.data ensures row in Rest(view, cursor) {
      var i :| 0 <= i < |page.data| && page.data[i] == row;
      assert Rest(view, cursor)[i] == row;
    }
  }

  /** One fetch delivers a row after its cursor exactly if it does not miss it and does not leave it for the next page. */
  lemma OneFetch(view: View, cursor: Option<int>, limit: nat, row: int)
    requires limit > 0 && Sorted(view.list) && row in view.list && After(row, cursor)
    ensures var page := NextPage(view, cursor, limit);
      && (row in page.data <==> !Missed(view, cursor, row) && !(page.cursor.Some? && After(row, page.cursor)))
      && (Missed(view, cursor, row) && page.cursor.Some? ==> row < page.cursor.value)
  {
    RestMeaning(view, cursor);
    PageMeaning(Rest(view, cursor), limit);
    NextPageMeaning(view, cursor, limit);
  }

  // ----- a listing -----

  lemma SortedAppend(front: seq<int>, back: seq<int>, cut: int)
    requires Sorted(front) && Sorted(back)
    requires forall row :: row in front ==> row <= cut
    requires forall row :: row in back ==> cut < row
    ensures Sorted(front + back)
  {
    var all := front + back;
    forall i, j | 0 <= i < j < |all| ensures all[i] < all[j] {
      if i < |front| <= j {
        assert all[i] in front && all[j] == back[j - |front|] && all[j] in back;
      }
    }
  }

  lemma SeenLater(row: int, views: seq<View>)
    requires views != []
    ensures SeenInOne(row, views[1..]) ==> SeenInOne(row, views)
    ensures SeenInAll(row, views) ==> row in views[0].list && SeenInAll(row, views[1..])
  {
    if SeenInOne(row, views[1..]) {
      var k :| 0 <= k < |views[1..]| && row in views[1..][k].list;
      assert row in views[k + 1].list;
    }
  }

  /** However the list changes between fetches, rows come in order, none twice, and none that was never there. */
  lemma {:induction false} InOrderOnce(views: seq<View>, cursor: Option<int>, limit: nat)
    requires limit > 0 && AllSorted(views)
    ensures var rows := Follow(views, cursor, limit);
      && Sorted(rows)
      && forall row :: row in rows ==> After(row, cursor) && SeenInOne(row, views)
  {
    if views != [] {
      NextPageMeaning(views[0], cursor, limit);
      var page := NextPage(views[0], cursor, limit);
      if page.cursor.Some? {
        var rest := Follow(views[1..], page.cursor, limit);
        InOrderOnce(views[1..], page.cursor, limit);
        SortedAppend(page.data, rest, page.cursor.value);
        forall row | row in rest ensures SeenInOne(row, views) { SeenLater(row, views); }
      }
    }
  }

  /** The last fetch, and no earlier one, comes back without a cursor. */
  ghost predicate Ends(views: seq<View>, cursor: Option<int>, limit: nat) {
    && views != []
    && var page := NextPage(views[0], cursor, limit);
       if |views| == 1 then page.cursor.None? else page.cursor.Some? && Ends(views[1..], page.cursor, limit)
  }

  /** The cursor of the k-th fetch. */
  ghost function CursorAt(views: seq<View>, cursor: Option<int>, limit: nat, k: nat): Option<int>
    requires k < |views|
  {
    if k == 0 then cursor else CursorAt(views[1..], NextPage(views[0], cursor, limit).cursor, limit, k - 1)
  }

  lemma {:induction false} CursorsGrow(views: seq<View>, cursor: Option<int>, limit: nat, k: nat)
    requires limit > 0 && AllSorted(views) && Ends(views, cursor, limit) && cursor.Some? && k < |views|
    ensures CursorAt(views, cursor, limit, k).Some? && cursor.value <= CursorAt(views, cursor, limit, k).value
  {
    if k > 0 {
      NextPageMeaning(views[0], cursor, limit);
      CursorsGrow(views[1..], NextPage(views[0], cursor, limit).cursor, limit, k - 1);
    }
  }

  /** The k-th fetch misses a row still to come. */
  ghost predicate MissedAt(views: seq<View>, cursor: Option<int>, limit: nat, row: int, k: nat)
    requires k < |views|
  {
    After(row, CursorAt(views, cursor, limit, k)) && Missed(views[k], CursorAt(views, cursor, limit, k), row)
  }

  /** A row present at every fetch is delivered exactly if no fetch misses it. */
  lemma {:induction false} RowDelivered(views: seq<View>, cursor: Option<int>, limit: nat, row: int)
    requires limit > 0 && AllSorted(views) && Ends(views, cursor, limit)
    requires After(row, cursor) && SeenInAll(row, views)
    ensures row in Follow(views, cursor, limit) <==> forall k: nat :: k < |views| ==> !MissedAt(views, cursor, limit, row, k)
    decreases views, 1
  {
    OneFetch(views[0], cursor, limit, row);
    assert MissedAt(views, cursor, limit, row, 0) <==> Missed(views[0], cursor, row);
    if |views| > 1 { LaterFetches(views, cursor, limit, row); }
  }

  lemma {:induction false} LaterFetches(views: seq<View>, cursor: Option<int>, limit: nat, row: int)
    requires limit > 0 && |views| > 1 && AllSorted(views) && Ends(views, cursor, limit)
    requires After(row, cursor) && SeenInAll(row, views)
    requires MissedAt(views, cursor, limit, row, 0) <==> Missed(views[0], cursor, row)
    ensures row in Follow(views, cursor, limit) <==> forall k: nat :: k < |views| ==> !MissedAt(views, cursor, limit, row, k)
    decreases views, 0
  {
    var page, rest := NextPage(views[0], cursor, limit), views[1..];
    OneFetch(views[0], cursor, limit, row);
    SeenLater(row, views);
    forall k: nat | 0 < k < |views|
      ensures MissedAt(views, cursor, limit, row, k) <==> MissedAt(rest, page.cursor, limit, row, k - 1)
    {
      assert views[k] == rest[k - 1];
    }
    assert Follow(views, cursor, limit) == page.data + Follow(rest, page.cursor, limit);
    if After(row, page.cursor) {
      RowDelivered(rest, page.cursor, limit, row);
      MissedLater(views, cursor, limit, row);
    } else {
      InOrderOnce(rest, page.cursor, limit);
      forall k: nat | k < |rest| ensures !MissedAt(rest, page.cursor, limit, row, k) { CursorsGrow(rest, page.cursor, limit, k); }
    }
  }

  /** A row missed by a later fetch is missed by one of all. */
  lemma MissedLater(views: seq<View>, cursor: Option<int>, limit: nat, row: int)
    requires |views| > 1
    ensures var next := NextPage(views[0], cursor, limit).cursor;
      (forall k: nat :: k < |views| ==> !MissedAt(views, cursor, limit, row, k)) <==>
        !MissedAt(views, cursor, limit, row, 0) && forall k: nat :: k < |views[1..]| ==> !MissedAt(views[1..], next, limit, row, k)
  {
    var next := NextPage(views[0], cursor, limit).cursor;
    forall k: nat | k < |views[1..]| ensures MissedAt(views, cursor, limit, row, k + 1) <==> MissedAt(views[1..], next, limit, row, k) {
      assert views[k + 1] == views[1..][k];
    }
    if k: nat :| k < |views| && MissedAt(views, cursor, limit, row, k) {
      assert k == 0 || MissedAt(views[1..], next, limit, row, k - 1);
    }
  }

  /**
   Every row present at all fetches is delivered if and only if no fetch whose cursor row has left
   the list misses such a row: all later ones if the row is deleted, the first later one if it is hidden.
   */
  lemma DeliveryExact(views: seq<View>, cursor: Option<int>, limit: nat)
    requires limit > 0 && AllSorted(views) && Ends(views, cursor, limit)
    ensures (forall row :: After(row, cursor) && SeenInAll(row, views) ==> row in Follow(views, cursor, limit)) <==>
      forall k: nat, row :: k < |views| && After(row, cursor) && SeenInAll(row, views) ==> !MissedAt(views, cursor, limit, row, k)
  {
    forall row | After(row, cursor) && SeenInAll(row, views)
      ensures row in Follow(views, cursor, limit) <==> forall k: nat :: k < |views| ==> !MissedAt(views, cursor, limit, row, k)
    {
      RowDelivered(views, cursor, limit, row);
    }
  }

  /** And no cursor row has left the list by the time of its fetch. */
  ghost predicate RunsToEnd(views: seq<View>, cursor: Option<int>, limit: nat) {
    && Ends(views, cursor, limit)
    && forall k: nat :: k < |views| ==>
         CursorAt(views, cursor, limit, k).None? || CursorAt(views, cursor, limit, k).value in views[k].list
  }

  /** If no cursor row leaves the list, every row that was there at every fetch is delivered. */
  lemma NothingMissed(views: seq<View>, cursor: Option<int>, limit: nat, row: int)
    requires limit > 0 && AllSorted(views) && RunsToEnd(views, cursor, limit)
    requires After(row, cursor) && SeenInAll(row, views)
    ensures row in Follow(views, cursor, limit)
  {
    RowDelivered(views, cursor, limit, row);
    assert forall k: nat :: k < |views| ==> !MissedAt(views, cursor, limit, row, k);
  }

  lemma {:induction false} SortedUnique(a: seq<int>, b: seq<int>)
    requires Sorted(a) && Sorted(b)
    requires forall row :: row in a <==> row in b
    ensures a == b
  {
    assert b != [] ==> b[0] in b;
    if a != [] {
      assert a[0] in a && b != [];
      assert b[0] in a;
      assert a[0] == b[0];
      forall row | row in a[1..] ensures row in b[1..] { assert row in b && row != b[0]; }
      forall row | row in b[1..] ensures row in a[1..] { assert row in a && row != a[0]; }
      SortedUnique(a[1..], b[1..]);
      assert a == [a[0]] + a[1..] && b == [b[0]] + b[1..];
    }
  }

  /** Over a list that does not change, every cursor row stays. */
  lemma {:induction false} CursorStays(views: seq<View>, list: seq<int>, cursor: Option<int>, limit: nat, k: nat)
    requires limit > 0 && Sorted(list) && Ends(views, cursor, limit) && k < |views|
    requires forall i :: 0 <= i < |views| ==> views[i].list == list
    requires cursor.None? || cursor.value in list
    ensures CursorAt(views, cursor, limit, k).None? || CursorAt(views, cursor, limit, k).value in list
  {
    if k > 0 {
      NextPageMeaning(views[0], cursor, limit);
      CursorStays(views[1..], list, NextPage(views[0], cursor, limit).cursor, limit, k - 1);
    }
  }

  /** Over a list that does not change, the pages put together are the list. */
  lemma PagesMakeTheList(views: seq<View>, list: seq<int>, limit: nat)
    requires limit > 0 && Sorted(list) && Ends(views, None, limit)
    requires forall k :: 0 <= k < |views| ==> views[k].list == list
    ensures Follow(views, None, limit) == list
  {
    InOrderOnce(views, None, limit);
    forall k: nat | k < |views|
      ensures CursorAt(views, None, limit, k).None? || CursorAt(views, None, limit, k).value in views[k].list
    {
      CursorStays(views, list, None, limit, k);
    }
    forall row | row in list ensures row in Follow(views, None, limit) { NothingMissed(views, None, limit, row); }
    SortedUnique(Follow(views, None, limit), list);
  }

  /** If the cursor row is deleted, the listing ends there: every later row is lost. */
  lemma DeletedCursorEndsListing()
    ensures var before, later := View([1, 2, 3, 4], {}), View([1, 3, 4], {});
      && NextPage(before, None, 2).cursor == Some(2)
      && Follow([before, later], None, 2) == [1, 2]
  {
    var before, later := View([1, 2, 3, 4], {}), View([1, 3, 4], {});
    assert NextPage(before, None, 2) == Page([1, 2], Some(2));
    assert NextPage(later, Some(2), 2) == Page([], None);
    assert [before, later][1..] == [later];
    assert Follow([later], Some(2), 2) == [];
  }

  /** If it only leaves the list, the row after it is skipped. */
  lemma HiddenCursorSkipsRow()
    ensures var before, later := View([1, 2, 3, 4], {}), View([1, 3, 4], {2});
      Follow([before, later], None, 2) == [1, 2, 4]
  {
    var before, later := View([1, 2, 3, 4], {}), View([1, 3, 4], {2});
    assert NextPage(before, None, 2) == Page([1, 2], Some(2));
    assert From([1, 3, 4], 2) == [3, 4] by { assert [1, 3, 4][1..] == [3, 4]; }
    assert NextPage(later, Some(2), 2) == Page([4], None) by { assert SkipOne([3, 4]) == [4]; }
    assert [before, later][1..] == [later];
    assert Follow([later], Some(2), 2) == [4];
  }
}
