/** The read-only vacation queries: the filtered, aggregated and paginated listing, the
    single-vacation view, the followers report and its CSV rendering. Each is a function of
    the two tables; `today` is the server's current date. */
module VacationListing {
  import opened Wrappers
  import opened Strings
  import opened Sorting
  import opened Models
  import opened Followers

  /** Every vacation is stored under its own id. */
  predicate KeysAreIds(vacations: map<nat, Vacation>) {
    forall k :: k in vacations ==> vacations[k].id == k
  }

  /** The vacations table in scan order: the rows with an id below `n`, by ascending id. */
  function Rows(vacations: map<nat, Vacation>, n: nat): (rows: seq<Vacation>)
    requires KeysAreIds(vacations)
    ensures forall i :: 0 <= i < |rows| ==>
      rows[i].id < n && rows[i].id in vacations && vacations[rows[i].id] == rows[i]
    ensures forall i, j :: 0 <= i < j < |rows| ==> rows[i].id < rows[j].id
    decreases n
  {
    if n == 0 then []
    else Rows(vacations, n - 1) + (if n - 1 in vacations then [vacations[n - 1]] else [])
  }

  /** The scan misses no stored row below `n`. */
  lemma {:induction false} RowsComplete(vacations: map<nat, Vacation>, n: nat)
    requires KeysAreIds(vacations)
    ensures forall k :: k in vacations && k < n ==> vacations[k] in Rows(vacations, n)
    decreases n
  {
    if n > 0 {
      RowsComplete(vacations, n - 1);
    }
  }

  /** Every stored id is below the next auto-increment id. */
  predicate IdsBelowNext(vacations: map<nat, Vacation>, nextId: nat) {
    forall k :: k in vacations ==> k < nextId
  }

  function IdsBelow(vacations: map<nat, Vacation>, n: nat): set<nat> {
    set k | k in vacations && k < n
  }

  /** The scan holds one row per stored id below `n`. */
  lemma {:induction false} RowsCount(vacations: map<nat, Vacation>, n: nat)
    requires KeysAreIds(vacations)
    ensures |Rows(vacations, n)| == |IdsBelow(vacations, n)|
    decreases n
  {
    if n > 0 {
      RowsCount(vacations, n - 1);
      RowsStep(vacations, n - 1);
      IdsBelowStep(vacations, n - 1);
    }
  }

  /** The scan up to `n + 1` has one more row than the scan up to `n` when `n` is stored. */
  lemma RowsStep(vacations: map<nat, Vacation>, n: nat)
    requires KeysAreIds(vacations)
    ensures |Rows(vacations, n + 1)| == |Rows(vacations, n)| + (if n in vacations then 1 else 0)
  {
  }

  /** There is one more id below `n + 1` than below `n` when `n` is stored. */
  lemma IdsBelowStep(vacations: map<nat, Vacation>, n: nat)
    ensures |IdsBelow(vacations, n + 1)| == |IdsBelow(vacations, n)| + (if n in vacations then 1 else 0)
  {
    var below := IdsBelow(vacations, n);
    assert n !in below;
    if n in vacations {
      assert IdsBelow(vacations, n + 1) == below + {n};
    } else {
      assert IdsBelow(vacations, n + 1) == below;
    }
  }

  // ---------------------------------------------------------------------------
  // The listing: GET /vacations?page&limit&filter

  const DefaultPage := 1
  const DefaultLimit := 10
  const ListingErrorMessage := "Server error fetching vacations"
  const NotFoundMessage := "Vacation not found"

  /** A caller id that JavaScript treats as present (`userId` is truthy). */
  predicate KnownCaller(caller: Option<nat>) {
    caller.Some? && caller.value != 0
  }

  predicate NotStarted(v: Vacation, today: Day) {
    v.startDate > today
  }

  predicate ActiveOn(v: Vacation, today: Day) {
    v.startDate <= today && v.endDate >= today
  }

  /** The WHERE clause chosen by the `filter` query value; any other value, or "following"
      without a caller, selects every vacation. */
  predicate InFilter(v: Vacation, fs: seq<Follow>, caller: Option<nat>, filter: Option<string>, today: Day) {
    if filter == Some("following") && KnownCaller(caller) then Follow(caller.value, v.id) in fs
    else if filter == Some("notStarted") then NotStarted(v, today)
    else if filter == Some("active") then ActiveOn(v, today)
    else true
  }

  /** The rows the filter selects, in scan order. */
  function Matching(rows: seq<Vacation>, fs: seq<Follow>, caller: Option<nat>, filter: Option<string>, today: Day)
    : (r: seq<Vacation>)
    ensures forall v :: v in r <==> v in rows && InFilter(v, fs, caller, filter, today)
    ensures |r| <= |rows|
    decreases |rows|
  {
    if rows == [] then []
    else
      var rest := Matching(rows[1..], fs, caller, filter, today);
      assert rows == [rows[0]] + rows[1..];
      if InFilter(rows[0], fs, caller, filter, today) then [rows[0]] + rest else rest
  }

  /** The ids of the stored vacations the filter selects. */
  function MatchingIds(vacations: map<nat, Vacation>, fs: seq<Follow>, caller: Option<nat>,
                       filter: Option<string>, today: Day): set<nat>
  {
    set k | k in vacations && InFilter(vacations[k], fs, caller, filter, today)
  }

  function MatchingIdsBelow(vacations: map<nat, Vacation>, n: nat, fs: seq<Follow>, caller: Option<nat>,
                            filter: Option<string>, today: Day): set<nat>
  {
    set k | k in vacations && k < n && InFilter(vacations[k], fs, caller, filter, today)
  }

  /** Filtering a concatenation filters each part. */
  lemma {:induction false} MatchingAppend(a: seq<Vacation>, b: seq<Vacation>, fs: seq<Follow>,
                                          caller: Option<nat>, filter: Option<string>, today: Day)
    ensures Matching(a + b, fs, caller, filter, today)
            == Matching(a, fs, caller, filter, today) + Matching(b, fs, caller, filter, today)
    decreases |a|
  {
    if a == [] {
      assert a + b == b;
    } else {
      assert (a + b)[1..] == a[1..] + b;
      MatchingAppend(a[1..], b, fs, caller, filter, today);
    }
  }

  /** The scan up to `n` selects one row per stored id below `n` that the filter selects. */
  lemma {:induction false} MatchingCount(vacations: map<nat, Vacation>, n: nat, fs: seq<Follow>,
                                         caller: Option<nat>, filter: Option<string>, today: Day)
    requires KeysAreIds(vacations)
    ensures |Matching(Rows(vacations, n), fs, caller, filter, today)|
            == |MatchingIdsBelow(vacations, n, fs, caller, filter, today)|
    decreases n
  {
    if n == 0 {
      assert MatchingIdsBelow(vacations, n, fs, caller, filter, today) == {};
    } else {
      MatchingCount(vacations, n - 1, fs, caller, filter, today);
      MatchingStep(vacations, n, fs, caller, filter, today);
    }
  }

  /** Scanning one more id adds as many selected rows as matching ids. */
  lemma MatchingStep(vacations: map<nat, Vacation>, n: nat, fs: seq<Follow>,
                     caller: Option<nat>, filter: Option<string>, today: Day)
    requires KeysAreIds(vacations) && n > 0
    ensures |Matching(Rows(vacations, n), fs, caller, filter, today)|
            - |Matching(Rows(vacations, n - 1), fs, caller, filter, today)|
            == |MatchingIdsBelow(vacations, n, fs, caller, filter, today)|
               - |MatchingIdsBelow(vacations, n - 1, fs, caller, filter, today)|
  {
    MatchingRowsStep(vacations, n, fs, caller, filter, today);
    MatchingIdsBelowStep(vacations, n, fs, caller, filter, today);
  }

  /** Scanning one more id selects one more row exactly when that id is stored and matches. */
  lemma MatchingRowsStep(vacations: map<nat, Vacation>, n: nat, fs: seq<Follow>,
                         caller: Option<nat>, filter: Option<string>, today: Day)
    requires KeysAreIds(vacations) && n > 0
    ensures |Matching(Rows(vacations, n), fs, caller, filter, today)|
            == |Matching(Rows(vacations, n - 1), fs, caller, filter, today)|
               + (if n - 1 in vacations && InFilter(vacations[n - 1], fs, caller, filter, today) then 1 else 0)
  {
    var extra := if n - 1 in vacations then [vacations[n - 1]] else [];
    assert Rows(vacations, n) == Rows(vacations, n - 1) + extra;
    MatchingAppend(Rows(vacations, n - 1), extra, fs, caller, filter, today);
    if n - 1 in vacations {
      assert extra[1..] == [];
    }
  }

  /** One more matching id lies below `n + 1` than below `n` exactly when `n` is stored and matches. */
  lemma MatchingIdsBelowStep(vacations: map<nat, Vacation>, n: nat, fs: seq<Follow>,
                             caller: Option<nat>, filter: Option<string>, today: Day)
    requires n > 0
    ensures |MatchingIdsBelow(vacations, n, fs, caller, filter, today)|
            == |MatchingIdsBelow(vacations, n - 1, fs, caller, filter, today)|
               + (if n - 1 in vacations && InFilter(vacations[n - 1], fs, caller, filter, today) then 1 else 0)
  {
    var m := n - 1;
    var below := MatchingIdsBelow(vacations, m, fs, caller, filter, today);
    assert m !in below;
    if m in vacations && InFilter(vacations[m], fs, caller, filter, today) {
      assert MatchingIdsBelow(vacations, n, fs, caller, filter, today) == below + {m};
    } else {
      assert MatchingIdsBelow(vacations, n, fs, caller, filter, today) == below;
    }
  }

  /** With every id below `nextId`, the scan selects exactly one row per matching vacation. */
  lemma MatchingCountsMatchingIds(vacations: map<nat, Vacation>, nextId: nat, fs: seq<Follow>,
                                  caller: Option<nat>, filter: Option<string>, today: Day)
    requires KeysAreIds(vacations) && IdsBelowNext(vacations, nextId)
    ensures |Matching(Rows(vacations, nextId), fs, caller, filter, today)|
            == |MatchingIds(vacations, fs, caller, filter, today)|
  {
    MatchingCount(vacations, nextId, fs, caller, filter, today);
    assert MatchingIdsBelow(vacations, nextId, fs, caller, filter, today)
           == MatchingIds(vacations, fs, caller, filter, today);
  }

  predicate IsFollowing(fs: seq<Follow>, caller: Option<nat>, vacationId: nat) {
    KnownCaller(caller) && Follow(caller.value, vacationId) in fs
  }

  /** A vacation with its number of distinct followers and whether the caller follows it. */
  function ToItem(v: Vacation, fs: seq<Follow>, caller: Option<nat>): VacationItem {
    VacationItem(v, |FollowerIds(fs, v.id)|, IsFollowing(fs, caller, v.id))
  }

  function ToItems(rows: seq<Vacation>, fs: seq<Follow>, caller: Option<nat>): (items: seq<VacationItem>)
    ensures |items| == |rows|
    ensures forall i :: 0 <= i < |rows| ==> items[i] == ToItem(rows[i], fs, caller)
  {
    seq(|rows|, i requires 0 <= i < |rows| => ToItem(rows[i], fs, caller))
  }

  /** The sort key of `ORDER BY v.startDate ASC`. */
  function StartKey(item: VacationItem): int {
    item.vacation.startDate
  }

  /** `LIMIT limit OFFSET offset` over an ordered result. */
  function PageOf<T>(s: seq<T>, offset: nat, limit: nat): (r: seq<T>)
    ensures |r| <= limit
    ensures |r| == if offset >= |s| then 0 else if offset + limit <= |s| then limit else |s| - offset
    ensures forall i :: 0 <= i < |r| ==> r[i] == s[offset + i]
  {
    var lo := if offset < |s| then offset else |s|;
    var hi := if offset + limit < |s| then offset + limit else |s|;
    s[lo..hi]
  }

  /** `Math.ceil(total / limit)` for a positive limit: the fewest pages of `limit` rows
      that hold `total` rows. */
  function CeilDiv(total: nat, limit: nat): (pages: nat)
    requires limit > 0
    ensures pages * limit >= total
    ensures pages > 0 ==> (pages - 1) * limit < total
  {
    var q := (total + limit - 1) / limit;
    var m := (total + limit - 1) % limit;
    assert total + limit - 1 == q * limit + m;
    assert (q - 1) * limit == q * limit - limit;
    q
  }

  /** `Math.ceil(total / limit)`, which is not a number when the limit is 0 (sent as null). */
  function TotalPages(total: nat, limit: nat): (pages: Option<nat>)
    ensures pages.None? <==> limit == 0
  {
    if limit == 0 then None else Some(CeilDiv(total, limit))
  }

  datatype Listing = Listing(vacations: seq<VacationItem>, total: nat, page: int, totalPages: Option<nat>)

  /** What every listed item satisfies: it shows a stored vacation the filter selects, with
      its count of distinct followers and whether the caller follows it. */
  predicate Listed(it: VacationItem, vacations: map<nat, Vacation>, nextId: nat, fs: seq<Follow>,
                   caller: Option<nat>, filter: Option<string>, today: Day)
  {
    && it.vacation.id in vacations && vacations[it.vacation.id] == it.vacation && it.vacation.id < nextId
    && InFilter(it.vacation, fs, caller, filter, today)
    && it.followersCount == |FollowerIds(fs, it.vacation.id)|
    && it.isFollowing == IsFollowing(fs, caller, it.vacation.id)
  }

  /** The matching rows as items, ordered by start date. */
  function OrderedItems(vacations: map<nat, Vacation>, nextId: nat, fs: seq<Follow>,
                        caller: Option<nat>, filter: Option<string>, today: Day): (items: seq<VacationItem>)
    requires KeysAreIds(vacations) && IdsBelowNext(vacations, nextId)
    ensures SortedBy(items, StartKey)
    ensures |items| == |MatchingIds(vacations, fs, caller, filter, today)|
    ensures forall it :: it in items ==> Listed(it, vacations, nextId, fs, caller, filter, today)
    ensures forall k :: k in MatchingIds(vacations, fs, caller, filter, today) ==> ToItem(vacations[k], fs, caller) in items
  {
    var matching := Matching(Rows(vacations, nextId), fs, caller, filter, today);
    var items := ToItems(matching, fs, caller);
    var ordered := SortBy(items, StartKey);
    PermutationKeepsElements(ordered, items);
    MatchingCountsMatchingIds(vacations, nextId, fs, caller, filter, today);
    RowsComplete(vacations, nextId);
    forall k | k in MatchingIds(vacations, fs, caller, filter, today) ensures ToItem(vacations[k], fs, caller) in items {
      var v := vacations[k];
      assert v in matching;
      var i :| 0 <= i < |matching| && matching[i] == v;
      assert items[i] == ToItem(v, fs, caller);
    }
    assert forall it :: it in items ==> Listed(it, vacations, nextId, fs, caller, filter, today) by {
      forall it | it in items ensures Listed(it, vacations, nextId, fs, caller, filter, today) {
        var i :| 0 <= i < |items| && items[i] == it;
        assert matching[i] in matching;
      }
    }
    ordered
  }

  /** GET /vacations: page and limit default to 1 and 10; `offset = (page - 1) * limit`.
      A negative offset or limit makes the SQL statement invalid, which the handler answers
      with 500. `total` counts every matching row; `totalPages` is null when the limit is 0
      (JavaScript's division by zero). `nextId` is the table's next auto-increment id, above
      every stored id. */
  function ListVacations(vacations: map<nat, Vacation>, nextId: nat, fs: seq<Follow>, caller: Option<nat>,
                         page: Option<int>, limit: Option<int>, filter: Option<string>, today: Day)
    : (r: Reply<Listing>)
    requires KeysAreIds(vacations) && IdsBelowNext(vacations, nextId)
    ensures var p, l := page.GetOr(DefaultPage), limit.GetOr(DefaultLimit);
      r.Success? <==> Offset(p, l) >= 0 && l >= 0
    ensures r.Failure? ==> r == Failure(500, ListingErrorMessage)
    ensures r.Success? ==> r.status == 200 && r.value.page == page.GetOr(DefaultPage)
    ensures r.Success? ==> PageOfListing(r.value, vacations, nextId, fs, caller, limit.GetOr(DefaultLimit), filter, today)
    ensures r.Success? ==> var p, l := page.GetOr(DefaultPage), limit.GetOr(DefaultLimit);
      r.value.vacations == PageOf(OrderedItems(vacations, nextId, fs, caller, filter, today), Offset(p, l), l)
  {
    var p := page.GetOr(DefaultPage);
    var l := limit.GetOr(DefaultLimit);
    var offset := Offset(p, l);
    if offset < 0 || l < 0 then Failure(SERVER_ERROR, ListingErrorMessage)
    else Success(OK, ListingPage(vacations, nextId, fs, caller, p, offset, l, filter, today))
  }

  /** The `OFFSET` of a page: the rows on the pages before it. */
  function Offset(page: int, limit: int): int {
    (page - 1) * limit
  }

  /** What a successful listing holds: at most `limit` items, ordered by start date, each a
      listed vacation; the count of every matching row; null pages exactly for a zero limit. */
  predicate PageOfListing(listing: Listing, vacations: map<nat, Vacation>, nextId: nat, fs: seq<Follow>,
                          caller: Option<nat>, limit: int, filter: Option<string>, today: Day)
  {
    && |listing.vacations| <= limit
    && SortedBy(listing.vacations, StartKey)
    && listing.total == |MatchingIds(vacations, fs, caller, filter, today)|
    && (forall it :: it in listing.vacations ==> Listed(it, vacations, nextId, fs, caller, filter, today))
    && (limit == 0 <==> listing.totalPages.None?)
    && (limit > 0 ==> listing.totalPages == Some(CeilDiv(listing.total, limit)))
  }

  /** The page starting at row `offset` of the ordered matching rows. */
  function ListingPage(vacations: map<nat, Vacation>, nextId: nat, fs: seq<Follow>, caller: Option<nat>,
                       page: int, offset: nat, limit: nat, filter: Option<string>, today: Day): (listing: Listing)
    requires KeysAreIds(vacations) && IdsBelowNext(vacations, nextId)
    ensures listing.page == page
    ensures PageOfListing(listing, vacations, nextId, fs, caller, limit, filter, today)
  {
    var total := |MatchingIds(vacations, fs, caller, filter, today)|;
    var ordered := OrderedItems(vacations, nextId, fs, caller, filter, today);
    PageOfSortedListed(ordered, offset, limit, vacations, nextId, fs, caller, filter, today);
    Listing(PageOf(ordered, offset, limit), total, page, TotalPages(total, limit))
  }

  lemma PageOfSortedListed(ordered: seq<VacationItem>, offset: nat, l: nat, vacations: map<nat, Vacation>,
                           nextId: nat, fs: seq<Follow>, caller: Option<nat>, filter: Option<string>, today: Day)
    requires SortedBy(ordered, StartKey)
    requires forall it :: it in ordered ==> Listed(it, vacations, nextId, fs, caller, filter, today)
    ensures SortedBy(PageOf(ordered, offset, l), StartKey)
    ensures forall it :: it in PageOf(ordered, offset, l) ==> Listed(it, vacations, nextId, fs, caller, filter, today)
  {
    var items := PageOf(ordered, offset, l);
    forall it | it in items ensures Listed(it, vacations, nextId, fs, caller, filter, today) {
      var i :| 0 <= i < |items| && items[i] == it;
      assert ordered[offset + i] == it;
    }
    forall i, j | 0 <= i < j < |items| ensures StartKey(items[i]) <= StartKey(items[j]) {
      assert items[i] == ordered[offset + i] && items[j] == ordered[offset + j];
    }
  }

  /** A page past the last one is empty rather than an error. */
  lemma PageBeyondLastIsEmpty(vacations: map<nat, Vacation>, nextId: nat, fs: seq<Follow>, caller: Option<nat>,
                              page: int, limit: int, filter: Option<string>, today: Day)
    requires KeysAreIds(vacations) && IdsBelowNext(vacations, nextId)
    requires limit > 0
    requires var r := ListVacations(vacations, nextId, fs, caller, Some(page), Some(limit), filter, today);
      r.Success? && r.value.totalPages.Some? && page > r.value.totalPages.value
    ensures ListVacations(vacations, nextId, fs, caller, Some(page), Some(limit), filter, today).value.vacations == []
  {
    var r := ListVacations(vacations, nextId, fs, caller, Some(page), Some(limit), filter, today);
    OffsetPastLastPage(r.value.total, limit, page);
  }

  /** The offset of a page after the last one is at least the number of rows. */
  lemma OffsetPastLastPage(total: nat, limit: nat, page: int)
    requires limit > 0 && page > CeilDiv(total, limit)
    ensures Offset(page, limit) >= total
  {
    MultiplyMonotonic(CeilDiv(total, limit), page - 1, limit);
  }

  /** A first page whose limit covers every matching row lists every matching vacation. */
  lemma FirstPageListsEveryMatch(vacations: map<nat, Vacation>, nextId: nat, fs: seq<Follow>, caller: Option<nat>,
                                 limit: nat, filter: Option<string>, today: Day, id: nat)
    requires KeysAreIds(vacations) && IdsBelowNext(vacations, nextId)
    requires limit >= |MatchingIds(vacations, fs, caller, filter, today)|
    requires id in vacations && InFilter(vacations[id], fs, caller, filter, today)
    ensures ToItem(vacations[id], fs, caller)
            in ListVacations(vacations, nextId, fs, caller, Some(1), Some(limit), filter, today).value.vacations
  {
    var ordered := OrderedItems(vacations, nextId, fs, caller, filter, today);
    assert id in MatchingIds(vacations, fs, caller, filter, today);
    assert Offset(1, limit) == 0;
    var page := PageOf(ordered, 0, limit);
    var k :| 0 <= k < |ordered| && ordered[k] == ToItem(vacations[id], fs, caller);
    assert page[k] == ordered[k];
  }

  lemma MultiplyMonotonic(a: int, b: int, c: nat)
    requires a <= b
    ensures a * c <= b * c
  {
    assert b * c - a * c == (b - a) * c;
  }

  /** "following" without a known caller leaves the set unfiltered. */
  lemma {:induction false} FollowingWithoutCallerIsUnfiltered(rows: seq<Vacation>, fs: seq<Follow>,
                                                              caller: Option<nat>, today: Day)
    requires !KnownCaller(caller)
    ensures Matching(rows, fs, caller, Some("following"), today) == rows
    decreases |rows|
  {
    if rows != [] {
      FollowingWithoutCallerIsUnfiltered(rows[1..], fs, caller, today);
      assert [rows[0]] + rows[1..] == rows;
    }
  }

  /** The "notStarted" and "active" filters never select the same vacation. */
  lemma NotStartedAndActiveExclusive(v: Vacation, fs: seq<Follow>, caller: Option<nat>, today: Day)
    ensures !(InFilter(v, fs, caller, Some("notStarted"), today) && InFilter(v, fs, caller, Some("active"), today))
  {
  }

  /** Without a caller no listed vacation is marked as followed. */
  lemma NoCallerFollowsNothing(fs: seq<Follow>, v: Vacation)
    ensures !ToItem(v, fs, None).isFollowing
  {
  }

  // ---------------------------------------------------------------------------
  // GET /vacations/:id

  function GetVacationById(vacations: map<nat, Vacation>, fs: seq<Follow>, id: nat, caller: Option<nat>)
    : (r: Reply<VacationItem>)
    requires KeysAreIds(vacations)
    ensures r.Failure? <==> id !in vacations
    ensures r.Failure? ==> r == Failure(404, NotFoundMessage)
    ensures r.Success? ==> (r.status == 200 && r.value.vacation == vacations[id]
      && r.value.followersCount == |FollowerIds(fs, id)|
      && (r.value.isFollowing <==> KnownCaller(caller) && Follow(caller.value, id) in fs))
  {
    if id !in vacations then Failure(NOT_FOUND, NotFoundMessage)
    else Success(OK, ToItem(vacations[id], fs, caller))
  }

  /** Every item a listing shows is what fetching that vacation by id returns. */
  lemma ListedItemMatchesById(vacations: map<nat, Vacation>, nextId: nat, fs: seq<Follow>, caller: Option<nat>,
                              page: Option<int>, limit: Option<int>, filter: Option<string>, today: Day,
                              item: VacationItem)
    requires KeysAreIds(vacations) && IdsBelowNext(vacations, nextId)
    requires var r := ListVacations(vacations, nextId, fs, caller, page, limit, filter, today);
      r.Success? && item in r.value.vacations
    ensures GetVacationById(vacations, fs, item.vacation.id, caller) == Success(200, item)
  {
  }

  // ---------------------------------------------------------------------------
  // GET /vacations/report and GET /vacations/csv

  datatype ReportRow = ReportRow(destination: string, followersCount: nat)

  /** `GROUP BY v.id`: one row per vacation with `COUNT(f.userId)`. */
  function ReportRowOf(v: Vacation, fs: seq<Follow>): ReportRow {
    ReportRow(v.destination, RowCount(fs, v.id))
  }

  function ReportRows(rows: seq<Vacation>, fs: seq<Follow>): (r: seq<ReportRow>)
    ensures |r| == |rows|
    ensures forall i :: 0 <= i < |rows| ==> r[i] == ReportRowOf(rows[i], fs)
  {
    seq(|rows|, i requires 0 <= i < |rows| => ReportRowOf(rows[i], fs))
  }

  /** The sort key of `ORDER BY followersCount DESC`. */
  function DescendingCount(row: ReportRow): int {
    -(row.followersCount as int)
  }

  /** The followers report: the per-vacation rows ordered by descending follower count. */
  function Report(vacations: map<nat, Vacation>, nextId: nat, fs: seq<Follow>): (report: seq<ReportRow>)
    requires KeysAreIds(vacations)
    ensures multiset(report) == multiset(ReportRows(Rows(vacations, nextId), fs))
    ensures forall i, j :: 0 <= i < j < |report| ==> report[i].followersCount >= report[j].followersCount
  {
    var report := SortBy(ReportRows(Rows(vacations, nextId), fs), DescendingCount);
    assert forall i, j :: 0 <= i < j < |report| ==> DescendingCount(report[i]) <= DescendingCount(report[j]);
    report
  }

  /** The report has exactly one row per stored vacation (rows are not merged by destination). */
  lemma ReportHasOneRowPerVacation(vacations: map<nat, Vacation>, nextId: nat, fs: seq<Follow>)
    requires KeysAreIds(vacations) && IdsBelowNext(vacations, nextId)
    ensures |Report(vacations, nextId, fs)| == |vacations|
  {
    var report := Report(vacations, nextId, fs);
    PermutationKeepsElements(report, ReportRows(Rows(vacations, nextId), fs));
    RowsCount(vacations, nextId);
    assert IdsBelow(vacations, nextId) == vacations.Keys;
  }

  /** Without duplicate follower rows the report's count equals the listing's distinct count. */
  lemma ReportCountsDistinctFollowers(v: Vacation, fs: seq<Follow>)
    requires NoDuplicates(fs)
    ensures ReportRowOf(v, fs).followersCount == |FollowerIds(fs, v.id)|
  {
    DistinctFollowersMatchRows(fs, v.id);
  }

  const CsvHeader := "Destination,Followers"

  /** One report row as written to the CSV file, values verbatim and unquoted. */
  function RowText(row: ReportRow): string {
    row.destination + "," + NatToString(row.followersCount)
  }

  function CsvBody(rows: seq<ReportRow>): string
    decreases |rows|
  {
    if rows == [] then "" else RowText(rows[0]) + "\n" + CsvBody(rows[1..])
  }

  /** The CSV export: the header line, then one line per report row, each ending in "\n". */
  function CsvText(rows: seq<ReportRow>): string {
    CsvHeader + "\n" + CsvBody(rows)
  }

  lemma {:induction false} CsvBodyAppend(rows: seq<ReportRow>, row: ReportRow)
    ensures CsvBody(rows + [row]) == CsvBody(rows) + RowText(row) + "\n"
    decreases |rows|
  {
    if rows == [] {
      assert [row][1..] == [];
    } else {
      assert (rows + [row])[1..] == rows[1..] + [row];
      CsvBodyAppend(rows[1..], row);
    }
  }

  /** Appending a row to the report appends its line to the export. */
  lemma CsvTextAppend(rows: seq<ReportRow>, row: ReportRow)
    ensures CsvText(rows + [row]) == CsvText(rows) + RowText(row) + "\n"
  {
    CsvBodyAppend(rows, row);
  }

  /** Reads one CSV line back: a destination and a decimal count separated by one comma. */
  function ParseRowText(line: string): Option<ReportRow> {
    var fields := Split(line, ',');
    if |fields| == 2 && fields[1] != "" && AllDigits(fields[1]) then
      Some(ReportRow(fields[0], DigitsValue(fields[1])))
    else None
  }

  function ParseRowTexts(lines: seq<string>): Option<seq<ReportRow>>
    decreases |lines|
  {
    if lines == [] then Some([])
    else match (ParseRowText(lines[0]), ParseRowTexts(lines[1..]))
      case (Some(row), Some(rest)) => Some([row] + rest)
      case _ => None
  }

  /** Reads a CSV export back into report rows. */
  function ParseCsv(text: string): Option<seq<ReportRow>> {
    var lines := Split(text, '\n');
    if |lines| >= 2 && lines[0] == CsvHeader && lines[|lines| - 1] == "" then
      ParseRowTexts(lines[1..|lines| - 1])
    else None
  }

  predicate PlainDestination(row: ReportRow) {
    ',' !in row.destination && '\n' !in row.destination
  }

  lemma NoSeparatorInDigits(n: nat)
    ensures ',' !in NatToString(n) && '\n' !in NatToString(n)
  {
    var d := NatToString(n);
    forall k | 0 <= k < |d| ensures d[k] != ',' && d[k] != '\n' {
      assert IsDigit(d[k]);
    }
  }

  lemma RowTextRoundTrip(row: ReportRow)
    requires PlainDestination(row)
    ensures '\n' !in RowText(row)
    ensures ParseRowText(RowText(row)) == Some(row)
  {
    var digits := NatToString(row.followersCount);
    NoSeparatorInDigits(row.followersCount);
    SplitAfterSeparator(row.destination, ',', digits);
    SplitWithoutSeparator(digits, ',');
    assert RowText(row) == row.destination + [','] + digits;
    NatToStringRoundTrip(row.followersCount);
  }

  lemma {:induction false} SplitCsvBody(rows: seq<ReportRow>)
    requires forall i :: 0 <= i < |rows| ==> PlainDestination(rows[i])
    ensures Split(CsvBody(rows), '\n') == seq(|rows|, i requires 0 <= i < |rows| => RowText(rows[i])) + [""]
    decreases |rows|
  {
    if rows != [] {
      RowTextRoundTrip(rows[0]);
      SplitCsvBody(rows[1..]);
      SplitAfterSeparator(RowText(rows[0]), '\n', CsvBody(rows[1..]));
      assert CsvBody(rows) == RowText(rows[0]) + ['\n'] + CsvBody(rows[1..]);
    }
  }

  lemma {:induction false} ParseRowTextsRoundTrip(rows: seq<ReportRow>)
    requires forall i :: 0 <= i < |rows| ==> PlainDestination(rows[i])
    ensures ParseRowTexts(seq(|rows|, i requires 0 <= i < |rows| => RowText(rows[i]))) == Some(rows)
    decreases |rows|
  {
    if rows != [] {
      var lines := seq(|rows|, i requires 0 <= i < |rows| => RowText(rows[i]));
      RowTextRoundTrip(rows[0]);
      ParseRowTextsRoundTrip(rows[1..]);
      assert lines[1..] == seq(|rows[1..]|, i requires 0 <= i < |rows[1..]| => RowText(rows[1..][i]));
      assert [rows[0]] + rows[1..] == rows;
    }
  }

  /** When no destination holds a comma or a line break, the CSV export reads back into exactly
      the report rows: a header line, then one line per row, then the empty rest after the
      final line break. */
  lemma CsvRoundTrip(rows: seq<ReportRow>)
    requires forall i :: 0 <= i < |rows| ==> PlainDestination(rows[i])
    ensures |Split(CsvText(rows), '\n')| == |rows| + 2
    ensures ParseCsv(CsvText(rows)) == Some(rows)
  {
    assert '\n' !in CsvHeader;
    SplitAfterSeparator(CsvHeader, '\n', CsvBody(rows));
    assert CsvText(rows) == CsvHeader + ['\n'] + CsvBody(rows);
    SplitCsvBody(rows);
    var lines := Split(CsvText(rows), '\n');
    var texts := seq(|rows|, i requires 0 <= i < |rows| => RowText(rows[i]));
    assert lines == [CsvHeader] + texts + [""];
    assert lines[1..|lines| - 1] == texts;
    ParseRowTextsRoundTrip(rows);
  }

  /** Values are not quoted: a destination holding a comma yields a line that does not read
      back as two fields. */
  lemma CommaInDestinationIsAmbiguous(row: ReportRow)
    requires ',' in row.destination
    ensures ParseRowText(RowText(row)) == None
  {
    assert ',' in RowText(row) by {
      var k :| 0 <= k < |row.destination| && row.destination[k] == ',';
      assert RowText(row)[k] == ',';
    }
    SplitAfterComma(row.destination, NatToString(row.followersCount));
  }

  lemma SplitAfterComma(destination: string, digits: string)
    requires ',' in destination
    ensures |Split(destination + "," + digits, ',')| > 2
  {
    // cut the destination at its first comma
    SplitFirstPiece(destination, ',');
    var a := Split(destination, ',')[0];
    assert |a| < |destination|;
    var b := destination[|a| + 1..];
    assert destination == a + [','] + b;
    var tail := b + "," + digits;
    assert destination + "," + digits == a + [','] + tail;
    SplitAfterSeparator(a, ',', tail);
    assert tail[|b|] == ',';
    SplitAtSeparator(tail, ',');
  }
}
