/**
 Cursor paging over an unchanged collection: the id cursor with a sentinel row
 (chat.service.ts, notification.service.ts, pagination.util.ts) on the in-memory
 store, and the timestamp cursor of the prediction history (user.routes.ts). The
 text encoding of cursors is taken as invertible and left out.
 */
module Paging {
  import opened Wrappers
  import opened MemoryStore
  import StableSort

  // ---------------------------------------------------------------------------
  // The id cursor
  // ---------------------------------------------------------------------------

  datatype Page = Page(data: seq<Row>, nextCursor: Option<Value>)

  const ID: string := "id"

  /** One row more than the page is asked for; it only says whether there is a next page. */
  function PageQuery(filter: Where, keys: seq<SortKey>, limit: nat, cursor: Option<Value>): Query {
    if cursor.None? then Query(filter, keys, Some(limit + 1), 0, None)
    else Query(filter, keys, Some(limit + 1), 1, Some([(ID, cursor.value)]))
  }

  function TrimSentinel(rows: seq<Row>, limit: nat): seq<Row> {
    if |rows| > limit then rows[..limit] else rows
  }

  function NextCursor(rows: seq<Row>, limit: nat): Option<Value> {
    var page := TrimSentinel(rows, limit);
    if |rows| > limit && |page| > 0 then Some(Get(page[|page| - 1], ID)) else None
  }

  function GetPage(rows: seq<Row>, filter: Where, keys: seq<SortKey>, limit: nat, cursor: Option<Value>): Page {
    var found := FindMany(rows, PageQuery(filter, keys, limit, cursor));
    Page(TrimSentinel(found, limit), NextCursor(found, limit))
  }

  function Listing(rows: seq<Row>, filter: Where, keys: seq<SortKey>): seq<Row> {
    SortRows(Filter(rows, filter), keys)
  }

  /** A page as it depends on the listing only. */
  function PageOn(listing: seq<Row>, limit: nat, cursor: Option<Value>): Page {
    var found := SelectFrom(listing, PageQuery(Where([]), [], limit, cursor));
    Page(TrimSentinel(found, limit), NextCursor(found, limit))
  }

  lemma PageDependsOnListing(rows: seq<Row>, filter: Where, keys: seq<SortKey>, limit: nat, cursor: Option<Value>)
    ensures GetPage(rows, filter, keys, limit, cursor) == PageOn(Listing(rows, filter, keys), limit, cursor)
  {
  }

  /** No two rows have ids that compare as equal, and every row has one equal to itself. */
  predicate DistinctIds(rows: seq<Row>) {
    forall i, j :: 0 <= i < |rows| && 0 <= j < |rows| ==> (ValuesEqual(Get(rows[i], ID), Get(rows[j], ID)) <==> i == j)
  }

  /** How many rows a cursor still has before it. */
  function Remaining(listing: seq<Row>, cursor: Option<Value>): (n: nat)
    ensures n <= |listing|
  {
    if cursor.None? then |listing|
    else
      var i := FindIndex(listing, [(ID, cursor.value)], 0);
      if i.None? then 0 else |listing| - i.value - 1
  }

  lemma CursorFindsItsRow(listing: seq<Row>, k: nat)
    requires DistinctIds(listing) && k < |listing|
    ensures FindIndex(listing, [(ID, Get(listing[k], ID))], 0) == Some(k)
  {
    var cursor := [(ID, Get(listing[k], ID))];
    assert cursor[0] == (ID, Get(listing[k], ID));
    assert forall i :: 0 <= i < |listing| ==> (AtCursor(listing[i], cursor) <==> i == k);
  }

  /** A page holds the next rows of the listing. */
  lemma PageIsNextSlice(listing: seq<Row>, limit: nat, cursor: Option<Value>)
    requires limit >= 1
    ensures var page, left := PageOn(listing, limit, cursor), Remaining(listing, cursor);
            var from := |listing| - left;
            && page.data == (if left <= limit then listing[from..] else listing[from..from + limit])
            && page.nextCursor == if left <= limit then None else Some(Get(listing[from + limit - 1], ID))
  {
    var left := Remaining(listing, cursor);
    var from := |listing| - left;
    var found := SelectFrom(listing, PageQuery(Where([]), [], limit, cursor));
    assert found == Slice(listing, from, Some(limit + 1));
    if left > limit {
      assert found[..limit] == listing[from..from + limit];
    } else {
      assert found == listing[from..];
    }
  }

  /** Its cursor stands for what remains after them. */
  lemma CursorLeavesTheRest(listing: seq<Row>, limit: nat, cursor: Option<Value>)
    requires limit >= 1 && Remaining(listing, cursor) > limit && DistinctIds(listing)
    ensures Remaining(listing, PageOn(listing, limit, cursor).nextCursor) == Remaining(listing, cursor) - limit
  {
    PageIsNextSlice(listing, limit, cursor);
    CursorFindsItsRow(listing, |listing| - Remaining(listing, cursor) + limit - 1);
  }

  /** Every page from a cursor on, put together, while the listing stays what it is. */
  function Follow(listing: seq<Row>, limit: nat, cursor: Option<Value>): seq<Row>
    requires limit >= 1 && DistinctIds(listing)
    decreases Remaining(listing, cursor)
  {
    var page := PageOn(listing, limit, cursor);
    PageIsNextSlice(listing, limit, cursor);
    if page.nextCursor.None? then page.data
    else
      CursorLeavesTheRest(listing, limit, cursor);
      page.data + Follow(listing, limit, page.nextCursor)
  }

  lemma FollowStep(listing: seq<Row>, limit: nat, cursor: Option<Value>) returns (data: seq<Row>, next: Option<Value>)
    requires limit >= 1 && DistinctIds(listing)
    ensures var from := |listing| - Remaining(listing, cursor);
            if Remaining(listing, cursor) <= limit then Follow(listing, limit, cursor) == listing[from..]
            else
              && data == listing[from..from + limit]
              && Remaining(listing, next) == Remaining(listing, cursor) - limit
              && Follow(listing, limit, cursor) == data + Follow(listing, limit, next)
  {
    var page := PageOn(listing, limit, cursor);
    PageIsNextSlice(listing, limit, cursor);
    if Remaining(listing, cursor) > limit {
      CursorLeavesTheRest(listing, limit, cursor);
    }
    data, next := page.data, page.nextCursor;
  }

  lemma {:induction false} FollowGivesTheRest(listing: seq<Row>, limit: nat, cursor: Option<Value>)
    requires limit >= 1 && DistinctIds(listing)
    ensures Follow(listing, limit, cursor) == listing[|listing| - Remaining(listing, cursor)..]
    decreases Remaining(listing, cursor)
  {
    hide Follow, PageOn, Remaining;
    var left := Remaining(listing, cursor);
    var data, next := FollowStep(listing, limit, cursor);
    if left > limit {
      FollowGivesTheRest(listing, limit, next);
    }
  }

  /**
   Following id cursors from the first page over an unchanged collection
   terminates, and the pages together are the whole sorted listing: each row once.
   */
  lemma IdCursorPagesAreTheListing(listing: seq<Row>, limit: nat)
    requires limit >= 1 && DistinctIds(listing)
    ensures Follow(listing, limit, None) == listing
  {
    FollowGivesTheRest(listing, limit, None);
  }

  /**
   In memory a cursor row that has left the listing, such as a notification read
   while only unread ones are listed, ends the paging: the page is empty and there
   is no next one, whatever rows remain.
   */
  lemma LostCursorEndsThePaging(rows: seq<Row>, filter: Where, keys: seq<SortKey>, limit: nat, cursor: Value)
    requires forall i :: 0 <= i < |Listing(rows, filter, keys)| ==>
               !ValuesEqual(Get(Listing(rows, filter, keys)[i], ID), cursor)
    ensures GetPage(rows, filter, keys, limit, Some(cursor)) == Page([], None)
  {
    PageDependsOnListing(rows, filter, keys, limit, Some(cursor));
    LostOn(Listing(rows, filter, keys), limit, cursor);
  }

  lemma LostOn(listing: seq<Row>, limit: nat, cursor: Value)
    requires forall i :: 0 <= i < |listing| ==> !ValuesEqual(Get(listing[i], ID), cursor)
    ensures PageOn(listing, limit, Some(cursor)) == Page([], None)
  {
    assert [(ID, cursor)][0] == (ID, cursor);
    assert forall i :: 0 <= i < |listing| ==> !AtCursor(listing[i], [(ID, cursor)]);
  }

  // ---------------------------------------------------------------------------
  // The timestamp cursor
  // ---------------------------------------------------------------------------

  datatype Item = Item(id: nat, timestamp: int)

  /** Newest first; items of one moment stay in some fixed order. */
  predicate NewestFirst(items: seq<Item>) {
    forall i, j :: 0 <= i < j < |items| ==> items[i].timestamp >= items[j].timestamp
  }

  function Before(items: seq<Item>, cursor: int): (r: seq<Item>)
    ensures |r| <= |items|
    ensures forall i :: 0 <= i < |r| ==> r[i].timestamp < cursor
  {
    if items == [] then []
    else
      var n := |items| - 1;
      Before(items[..n], cursor) + (if items[n].timestamp < cursor then [items[n]] else [])
  }

  datatype HistoryPage = HistoryPage(data: seq<Item>, nextCursor: Option<int>)

  function GetHistoryPage(items: seq<Item>, limit: nat, cursor: int): HistoryPage
    requires limit >= 1
  {
    var found := Before(items, cursor);
    if |found| > limit then HistoryPage(found[..limit], Some(found[limit - 1].timestamp))
    else HistoryPage(found, None)
  }

  lemma BeforeShrinks(items: seq<Item>, early: int, late: int)
    requires early <= late
    ensures |Before(items, early)| <= |Before(items, late)|
    ensures forall x :: x in Before(items, late) && x.timestamp >= early ==> |Before(items, early)| < |Before(items, late)|
  {
    if items != [] {
      BeforeShrinks(items[..|items| - 1], early, late);
    }
  }

  function FollowHistory(items: seq<Item>, limit: nat, cursor: int): seq<Item>
    requires limit >= 1
    decreases |Before(items, cursor)|
  {
    var page := GetHistoryPage(items, limit, cursor);
    if page.nextCursor.None? then page.data
    else
      BeforeShrinks(items, page.nextCursor.value, cursor);
      assert Before(items, cursor)[limit - 1] in Before(items, cursor);
      page.data + FollowHistory(items, limit, page.nextCursor.value)
  }

  lemma EverythingBefore(items: seq<Item>, cursor: int)
    requires forall i :: 0 <= i < |items| ==> items[i].timestamp < cursor
    ensures Before(items, cursor) == items
  {
    if items != [] {
      EverythingBefore(items[..|items| - 1], cursor);
    }
  }

  lemma NothingBefore(items: seq<Item>, cursor: int)
    requires forall i :: 0 <= i < |items| ==> items[i].timestamp >= cursor
    ensures Before(items, cursor) == []
  {
  }

  lemma SuffixGrows(items: seq<Item>, start: nat)
    requires items != [] && start <= |items| - 1
    ensures items[start..] == items[..|items| - 1][start..] + [items[|items| - 1]]
  {
  }

  /** On a list that is newest first, what lies before a cursor is a suffix. */
  lemma {:induction false} BeforeIsSuffix(items: seq<Item>, cursor: int) returns (start: nat)
    requires NewestFirst(items)
    ensures start <= |items| && Before(items, cursor) == items[start..]
    ensures forall i :: 0 <= i < start ==> items[i].timestamp >= cursor
    ensures forall i :: start <= i < |items| ==> items[i].timestamp < cursor
  {
    if items == [] {
      start := 0;
    } else {
      var n := |items| - 1;
      if items[n].timestamp >= cursor {
        NothingBefore(items, cursor);
        start := |items|;
      } else {
        start := BeforeIsSuffix(items[..n], cursor);
        SuffixGrows(items, start);
      }
    }
  }

  /** No page boundary falls between two items of the same moment. */
  predicate BoundariesSplitNoTie(items: seq<Item>, limit: nat)
    requires limit >= 1
  {
    forall k :: 0 < k < |items| && k % limit == 0 ==> items[k].timestamp < items[k - 1].timestamp
  }

  lemma MultiplesGrow(d: int, t: int)
    requires d >= 1
    ensures t >= 1 ==> d * t >= d
    ensures t <= -1 ==> d * t <= -d
  {
    if t >= 1 {
      assert d * (t - 1) >= 0;
    } else if t <= -1 {
      assert d * (-t - 1) >= 0;
    }
  }

  lemma ModStep(k: int, limit: int)
    requires limit >= 1
    ensures (k + limit) % limit == k % limit
  {
    var q, q' := k / limit, (k + limit) / limit;
    assert limit * (q' - q - 1) == k % limit - (k + limit) % limit;
    MultiplesGrow(limit, q' - q - 1);
    assert q' - q - 1 == 0;
  }

  lemma ModSmall(k: int, limit: int)
    requires 0 <= k < limit
    ensures k % limit == k
  {
  }

  lemma BoundariesStep(items: seq<Item>, limit: nat)
    requires limit >= 1 && |items| > limit
    ensures BoundariesSplitNoTie(items, limit) <==>
              items[limit].timestamp < items[limit - 1].timestamp && BoundariesSplitNoTie(items[limit..], limit)
  {
    var rest := items[limit..];
    ModSmall(0, limit);
    ModStep(0, limit);
    if BoundariesSplitNoTie(items, limit) {
      forall k | 0 < k < |rest| && k % limit == 0 ensures rest[k].timestamp < rest[k - 1].timestamp {
        ModStep(k, limit);
        assert items[k + limit].timestamp < items[k + limit - 1].timestamp;
      }
    }
    if items[limit].timestamp < items[limit - 1].timestamp && BoundariesSplitNoTie(rest, limit) {
      forall k | 0 < k < |items| && k % limit == 0 ensures items[k].timestamp < items[k - 1].timestamp {
        if k < limit {
          ModSmall(k, limit);
        } else if k > limit {
          ModStep(k - limit, limit);
          assert rest[k - limit].timestamp < rest[k - limit - 1].timestamp;
        }
      }
    }
  }

  /**
   After a full page at least `limit` fewer items lie before the next cursor, and
   exactly so many fewer when the page does not end inside a group of equal timestamps.
   */
  lemma NextPageStarts(items: seq<Item>, limit: nat, cursor: int)
    requires limit >= 1 && NewestFirst(items) && |Before(items, cursor)| > limit
    ensures var found := Before(items, cursor);
            var rest := Before(items, found[limit - 1].timestamp);
            && |rest| <= |found| - limit
            && (|rest| == |found| - limit <==> found[limit].timestamp < found[limit - 1].timestamp)
            && (|rest| == |found| - limit ==> rest == found[limit..])
  {
    var found := Before(items, cursor);
    var next := found[limit - 1].timestamp;
    var rest := Before(items, next);
    var start := BeforeIsSuffix(items, cursor);
    var from := BeforeIsSuffix(items, next);
    assert found[limit - 1] == items[start + limit - 1] && found[limit] == items[start + limit];
    assert from >= start + limit;
    assert from == start + limit ==> rest == found[limit..];
  }

  lemma {:induction false} HistoryIsShort(items: seq<Item>, limit: nat, cursor: int)
    requires limit >= 1 && NewestFirst(items)
    ensures |FollowHistory(items, limit, cursor)| <= |Before(items, cursor)|
    decreases |Before(items, cursor)|
  {
    var found := Before(items, cursor);
    if |found| > limit {
      NextPageStarts(items, limit, cursor);
      HistoryIsShort(items, limit, found[limit - 1].timestamp);
    }
  }

  lemma HistoryStep(items: seq<Item>, limit: nat, cursor: int) returns (found: seq<Item>, next: int)
    requires limit >= 1 && |Before(items, cursor)| > limit
    ensures found == Before(items, cursor) && next == found[limit - 1].timestamp < cursor
    ensures FollowHistory(items, limit, cursor) == found[..limit] + FollowHistory(items, limit, next)
  {
    found := Before(items, cursor);
    next := found[limit - 1].timestamp;
  }

  lemma ShortHasNoBoundary(items: seq<Item>, limit: nat)
    requires limit >= 1 && |items| <= limit
    ensures BoundariesSplitNoTie(items, limit)
  {
    forall k | 0 < k < |items| ensures k % limit != 0 {
      ModSmall(k, limit);
    }
  }

  /** From a cursor on, the pages give everything before it exactly when no boundary splits a tie. */
  lemma {:induction false} HistoryRestIff(items: seq<Item>, limit: nat, cursor: int)
    requires limit >= 1 && NewestFirst(items)
    ensures FollowHistory(items, limit, cursor) == Before(items, cursor) <==>
              BoundariesSplitNoTie(Before(items, cursor), limit)
    decreases |Before(items, cursor)|
  {
    if |Before(items, cursor)| <= limit {
      ShortHasNoBoundary(Before(items, cursor), limit);
    } else {
      var found, next := HistoryStep(items, limit, cursor);
      NextPageStarts(items, limit, cursor);
      BoundariesStep(found, limit);
      if found[limit].timestamp < next {
        HistoryRestIff(items, limit, next);
      } else {
        HistoryIsShort(items, limit, next);
      }
    }
  }

  /**
   Following timestamp cursors from above the newest item gives every item exactly
   once if and only if no page boundary falls inside a group of equal timestamps;
   when one does, the rest of that group is skipped.
   */
  lemma HistoryPagesAreCompleteIff(items: seq<Item>, limit: nat, cursor: int)
    requires limit >= 1 && NewestFirst(items)
    requires forall i :: 0 <= i < |items| ==> items[i].timestamp < cursor
    ensures FollowHistory(items, limit, cursor) == items <==> BoundariesSplitNoTie(items, limit)
  {
    EverythingBefore(items, cursor);
    HistoryRestIff(items, limit, cursor);
  }
}
