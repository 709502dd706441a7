/** Listing a user's expenses: query parameters are compiled into a filter
    (owner, category, inclusive date range, case-insensitive search over
    title or description), the matching records are sorted newest first,
    one page of them is cut out, and the number of matches and pages is
    reported. */
module ExpenseQuery {
  import opened Wrappers
  import opened Calendar
  import Text
  import FullDate
  import opened ExpenseSchema
  import Sorting

  /** The query string, each parameter absent or the text given. `page` and
      `limit` are the numbers the text denotes. */
  datatype QueryParams = QueryParams(
    page: Option<int>,
    limit: Option<int>,
    category: Option<string>,
    startDate: Option<string>,
    endDate: Option<string>,
    search: Option<string>)

  const DefaultPage := 1
  const DefaultLimit := 10
  const AllCategories: string := "all"

  /** The compiled filter: the owner clause, which is always present, and
      the optional category, date-range and search clauses. */
  datatype Filter = Filter(
    owner: UserId,
    category: Option<string>,
    dateRange: Option<(Date, Date)>,
    search: Option<string>)

  /** A `new Date(…)` of a bound that is not a date makes the store refuse
      the query; the handler answers with a server error. */
  datatype ListError = DateCastFailed

  /** JavaScript truthiness of a query parameter: present and not empty. */
  predicate Given(s: Option<string>) {
    s.Some? && s.value != ""
  }

  /** Search matches when the text occurs, ignoring case, in the title or in
      the description. A record without a description matches only on its
      title. The text is taken literally. */
  predicate SearchMatches(e: Expense, text: string) {
    Text.ContainsIgnoringCase(e.title, text)
    || (e.description.Some? && Text.ContainsIgnoringCase(e.description.value, text))
  }

  /** A record satisfies every clause of the filter. */
  predicate Matches(f: Filter, e: Expense) {
    && e.owner == f.owner
    && (f.category.Some? ==> e.category == f.category.value)
    && (f.dateRange.Some? ==> InRange(e.date, f.dateRange.value.0, f.dateRange.value.1))
    && (f.search.Some? ==> SearchMatches(e, f.search.value))
  }

  /** Compiles the query parameters into a filter for `caller`. */
  function BuildFilter(caller: UserId, q: QueryParams): (r: Result<Filter, ListError>)
    ensures r.Ok? ==> r.value.owner == caller
    ensures r.Ok? ==> (r.value.category.Some? <==> Given(q.category) && q.category.value != AllCategories)
    ensures r.Ok? && r.value.category.Some? ==> r.value.category.value == q.category.value
    ensures r.Ok? ==> (r.value.dateRange.Some? <==> Given(q.startDate) && Given(q.endDate))
    ensures r.Ok? && r.value.dateRange.Some? ==>
              && FullDate.Parse(q.startDate.value) == Some(r.value.dateRange.value.0)
              && FullDate.Parse(q.endDate.value) == Some(r.value.dateRange.value.1)
    ensures r.Ok? ==> (r.value.search.Some? <==> Given(q.search))
    ensures r.Ok? && r.value.search.Some? ==> r.value.search.value == q.search.value
    ensures r.Err? <==> Given(q.startDate) && Given(q.endDate)
                        && (FullDate.Parse(q.startDate.value).None? || FullDate.Parse(q.endDate.value).None?)
  {
    var category := if Given(q.category) && q.category.value != AllCategories then q.category else None;
    var search := if Given(q.search) then q.search else None;
    if Given(q.startDate) && Given(q.endDate) then
      var lo := FullDate.Parse(q.startDate.value);
      var hi := FullDate.Parse(q.endDate.value);
      if lo.None? || hi.None? then Err(DateCastFailed)
      else Ok(Filter(caller, category, Some((lo.value, hi.value)), search))
    else Ok(Filter(caller, category, None, search))
  }

  /** The records of the store that satisfy the filter, in store order. */
  function Select(store: seq<Expense>, f: Filter): (r: seq<Expense>)
    ensures |r| <= |store|
    ensures forall e :: e in r <==> e in store && Matches(f, e)
  {
    if store == [] then []
    else (if Matches(f, store[0]) then [store[0]] else []) + Select(store[1..], f)
  }

  /** A filter that admits fewer records selects no more of them. */
  lemma {:induction false} SelectNarrower(store: seq<Expense>, f: Filter, g: Filter)
    requires forall e :: Matches(f, e) ==> Matches(g, e)
    ensures |Select(store, f)| <= |Select(store, g)|
  {
    if store != [] {
      SelectNarrower(store[1..], f, g);
    }
  }

  /** Sort key for `sort({date: -1})`. */
  function DateKey(e: Expense): real {
    Ordinal(e.date) as real
  }

  /** Page `page` of `limit` records: skip `(page - 1) * limit`, then take up
      to `limit`. */
  function Window<T>(s: seq<T>, page: int, limit: int): (r: seq<T>)
    requires page >= 1 && limit >= 1
    ensures |r| <= limit
    ensures (page - 1) * limit >= |s| ==> r == []
    ensures forall k :: 0 <= k < |r| ==> (page - 1) * limit + k < |s| && r[k] == s[(page - 1) * limit + k]
  {
    var skip := (page - 1) * limit;
    if skip >= |s| then [] else s[skip..if skip + limit <= |s| then skip + limit else |s|]
  }

  /** `Math.ceil(total / limit)` for a positive limit. */
  function PageCount(total: nat, limit: int): (r: nat)
    requires limit >= 1
    ensures r == 0 <==> total == 0
    ensures (r - 1) * limit < total <= r * limit || (r == 0 && total == 0)
  {
    (total + limit - 1) / limit
  }

  datatype Listing = Listing(expenses: seq<Expense>, totalPages: nat, currentPage: int, total: nat)

  /** The answer to `GET /` for `caller`: the requested page of the matching
      records sorted newest first, with the match count and page count. */
  function ListExpenses(store: seq<Expense>, caller: UserId, q: QueryParams): (r: Result<Listing, ListError>)
    requires q.page.Some? ==> q.page.value >= 1
    requires q.limit.Some? ==> q.limit.value >= 1
    ensures r.Err? <==> BuildFilter(caller, q).Err?
    ensures r.Ok? ==> forall e :: e in r.value.expenses ==> e in store && e.owner == caller
    ensures r.Ok? ==> forall e :: e in r.value.expenses ==> Matches(BuildFilter(caller, q).value, e)
    ensures r.Ok? ==> r.value.total == |Select(store, BuildFilter(caller, q).value)|
    ensures r.Ok? ==> |r.value.expenses| <= q.limit.GetOr(DefaultLimit)
    ensures r.Ok? ==> r.value.currentPage == q.page.GetOr(DefaultPage)
    ensures r.Ok? ==> Sorting.SortedDesc(r.value.expenses, DateKey)
  {
    match BuildFilter(caller, q)
    case Err(e) => Err(e)
    case Ok(f) => Ok(PageOf(store, f, q.page.GetOr(DefaultPage), q.limit.GetOr(DefaultLimit)))
  }

  /** Page `page` of the records matching `f`, newest first, with the
      counts. */
  function PageOf(store: seq<Expense>, f: Filter, page: int, limit: int): (r: Listing)
    requires page >= 1 && limit >= 1
    ensures forall e :: e in r.expenses ==> e in store && Matches(f, e)
    ensures r.total == |Select(store, f)|
    ensures |r.expenses| <= limit
    ensures r.currentPage == page
    ensures Sorting.SortedDesc(r.expenses, DateKey)
  {
    var matches := Select(store, f);
    var sorted := Sorting.SortDesc(matches, DateKey);
    var shown := Window(sorted, page, limit);
    WindowSorted(sorted, page, limit, DateKey);
    assert forall e :: e in shown ==> e in matches by {
      forall e | e in shown ensures e in matches {
        ShownIsMatch(matches, page, limit, e);
      }
    }
    Listing(shown, PageCount(|matches|, limit), page, |matches|)
  }

  /** A page of a sequence sorted newest first is itself sorted so. */
  lemma WindowSorted<T>(s: seq<T>, page: int, limit: int, key: T -> real)
    requires page >= 1 && limit >= 1
    requires Sorting.SortedDesc(s, key)
    ensures Sorting.SortedDesc(Window(s, page, limit), key)
  {
    var skip := (page - 1) * limit;
    if skip < |s| {
      Sorting.SliceSorted(s, skip, if skip + limit <= |s| then skip + limit else |s|, key);
    }
  }

  /** A record on a page of the sorted matches is one of the matches. */
  lemma ShownIsMatch(matches: seq<Expense>, page: int, limit: int, e: Expense)
    requires page >= 1 && limit >= 1
    requires e in Window(Sorting.SortDesc(matches, DateKey), page, limit)
    ensures e in matches
  {
    var sorted := Sorting.SortDesc(matches, DateKey);
    var shown := Window(sorted, page, limit);
    var k :| 0 <= k < |shown| && shown[k] == e;
    assert sorted[(page - 1) * limit + k] == e;
    Sorting.SortKeepsElements(matches, DateKey, e);
  }

  /** The page holds exactly the slice `[(page-1)*limit, page*limit)` of the
      matches sorted newest first, and the page count is the ceiling of the
      match count over the limit. */
  lemma {:induction false} ListingIsPageOfSortedMatches(store: seq<Expense>, caller: UserId, q: QueryParams)
    requires q.page.Some? ==> q.page.value >= 1
    requires q.limit.Some? ==> q.limit.value >= 1
    requires BuildFilter(caller, q).Ok?
    ensures var f := BuildFilter(caller, q).value;
            var page := q.page.GetOr(DefaultPage);
            var limit := q.limit.GetOr(DefaultLimit);
            var r := ListExpenses(store, caller, q).value;
            && r.expenses == Window(Sorting.SortDesc(Select(store, f), DateKey), page, limit)
            && r.totalPages == PageCount(|Select(store, f)|, limit)
  {
  }

  /** Every match is shown on exactly the page its rank puts it on, and that
      page is within the page count. */
  lemma {:induction false} EveryMatchHasAPage<T>(s: seq<T>, k: int, limit: int)
    requires 0 <= k < |s| && limit >= 1
    ensures var page := k / limit + 1;
            && 1 <= page <= PageCount(|s|, limit)
            && (page - 1) * limit <= k < page * limit
            && Window(s, page, limit)[k - (page - 1) * limit] == s[k]
  {
    var q := k / limit;
    var page := q + 1;
    assert k == q * limit + k % limit;
    assert q * limit <= k < q * limit + limit;
    var tp := PageCount(|s|, limit);
    if tp <= q {
      MultiplyMonotone(tp, q, limit);
    }
  }

  lemma MultiplyMonotone(a: int, b: int, c: int)
    requires a <= b && c >= 0
    ensures a * c <= b * c
  {
    assert b * c - a * c == (b - a) * c;
  }

  /** A page beyond the page count is empty. */
  lemma {:induction false} PagesBeyondCountAreEmpty<T>(s: seq<T>, page: int, limit: int)
    requires limit >= 1 && page > PageCount(|s|, limit)
    ensures Window(s, page, limit) == []
  {
    var tp := PageCount(|s|, limit);
    MultiplyMonotone(tp, page - 1, limit);
  }

  /** Within the listing, each shown expense is on the same day as the next
      one or later, when the store holds real days. */
  lemma {:induction false} ListingNewestFirst(store: seq<Expense>, caller: UserId, q: QueryParams)
    requires q.page.Some? ==> q.page.value >= 1
    requires q.limit.Some? ==> q.limit.value >= 1
    requires forall e :: e in store ==> IsValid(e.date)
    ensures ListExpenses(store, caller, q).Ok? ==>
              var xs := ListExpenses(store, caller, q).value.expenses;
              forall i, j :: 0 <= i < j < |xs| ==> NotAfter(xs[j].date, xs[i].date)
  {
    if ListExpenses(store, caller, q).Ok? {
      var xs := ListExpenses(store, caller, q).value.expenses;
      forall i, j | 0 <= i < j < |xs| ensures NotAfter(xs[j].date, xs[i].date) {
        assert DateKey(xs[i]) >= DateKey(xs[j]);
        assert xs[i] in xs && xs[j] in xs;
        OrdinalMonotone(xs[j].date, xs[i].date);
      }
    }
  }

  /** No query parameter widens the listing beyond the caller's records: the
      match count never exceeds the number of records the caller owns. */
  lemma {:induction false} CountScopedToCaller(store: seq<Expense>, caller: UserId, q: QueryParams)
    requires BuildFilter(caller, q).Ok?
    ensures |Select(store, BuildFilter(caller, q).value)| <= |Select(store, Filter(caller, None, None, None))|
  {
    SelectNarrower(store, BuildFilter(caller, q).value, Filter(caller, None, None, None));
  }

  /** With no category, no complete date range and no search text, the
      listing matches every record of the caller, whatever its category. */
  lemma {:induction false} UnconstrainedQueryMatchesAllOwn(caller: UserId, q: QueryParams, e: Expense)
    requires !Given(q.category) || q.category.value == AllCategories
    requires !(Given(q.startDate) && Given(q.endDate))
    requires !Given(q.search)
    ensures BuildFilter(caller, q).Ok?
    ensures Matches(BuildFilter(caller, q).value, e) <==> e.owner == caller
  {
  }

  /** A single date bound is ignored: the filter is the one built with no
      bounds at all. */
  lemma {:induction false} OneBoundIgnored(caller: UserId, q: QueryParams)
    requires !(Given(q.startDate) && Given(q.endDate))
    ensures BuildFilter(caller, q) == BuildFilter(caller, q.(startDate := None, endDate := None))
  {
  }

  /** The search text "coffee" finds "Morning Coffee" by title and "bought
      coffee" by description, and neither field containing it means no match. */
  lemma {:induction false} CoffeeSearch(e1: Expense, e2: Expense, e3: Expense)
    requires e1.title == "Morning Coffee"
    requires e2.description == Some("bought coffee")
    requires e3.title == "Tea" && e3.description.None?
    ensures SearchMatches(e1, "coffee") && SearchMatches(e2, "coffee")
    ensures !SearchMatches(e3, "coffee")
  {
    var t := Text.Lower(e1.title);
    assert t[8..14] == "coffee";
    assert Text.OccursAt(t, Text.Lower("coffee"), 8);
    var d := Text.Lower(e2.description.value);
    assert d[7..13] == "coffee";
    assert Text.OccursAt(d, Text.Lower("coffee"), 7);
  }

  /** Twenty-five matches at ten per page: the first page shows ten, the
      count is 25 and there are three pages. */
  lemma TwentyFiveMatches(store: seq<Expense>, caller: UserId, q: QueryParams)
    requires q.page == Some(1) && q.limit == Some(10)
    requires BuildFilter(caller, q).Ok?
    requires |Select(store, BuildFilter(caller, q).value)| == 25
    ensures var r := ListExpenses(store, caller, q).value;
            |r.expenses| == 10 && r.total == 25 && r.totalPages == 3
  {
    ListingIsPageOfSortedMatches(store, caller, q);
  }
}
