/** The client's expense state: the reducer that applies each action to the
    list, the statistics, the loading flag, the filters and the pagination,
    and the query parameters the client sends when it fetches a page or the
    statistics. */
module ExpenseContext {
  import opened Wrappers
  import opened ExpenseSchema
  import ExpenseQuery
  import ExpenseStats
  import Decimal

  /** The filter fields by name; a payload of `SET_FILTERS` may carry any
      subset of them, or other keys. */
  type Filters = map<string, string>

  datatype Pagination = Pagination(currentPage: int, totalPages: int, total: int)

  datatype State = State(
    expenses: seq<Expense>,
    stats: Option<ExpenseStats.Stats>,
    isLoading: bool,
    filters: Filters,
    pagination: Pagination)

  const InitialFilters: Filters :=
    map["category" := "all", "startDate" := "", "endDate" := "", "search" := ""]

  const InitialState: State := State([], None, false, InitialFilters, Pagination(1, 1, 0))

  datatype Action =
    | SetLoading(loading: bool)
    | SetExpenses(listing: ExpenseQuery.Listing)
    | AddExpense(added: Expense)
    | UpdateExpense(updated: Expense)
    | DeleteExpense(id: ExpenseId)
    | SetStats(payload: ExpenseStats.Stats)
    | SetFilters(changes: Filters)
    | ResetFilters
    | Unrecognised(kind: string)

  /** The list with every element carrying `x`'s id replaced by `x`. */
  function ReplaceById(s: seq<Expense>, x: Expense): (r: seq<Expense>)
    ensures |r| == |s|
    ensures forall i :: 0 <= i < |s| ==> r[i].id == s[i].id
    ensures forall i :: 0 <= i < |s| ==> r[i] == (if s[i].id == x.id then x else s[i])
  {
    seq(|s|, i requires 0 <= i < |s| => if s[i].id == x.id then x else s[i])
  }

  /** The list without the elements carrying id `id`, in their order. */
  function RemoveById(s: seq<Expense>, id: ExpenseId): (r: seq<Expense>)
    ensures |r| <= |s|
    ensures forall i :: 0 <= i < |r| ==> r[i].id != id
  {
    if s == [] then []
    else (if s[0].id == id then [] else [s[0]]) + RemoveById(s[1..], id)
  }

  /** Removal keeps exactly the elements of another id. */
  lemma {:induction false} RemoveByIdMembers(s: seq<Expense>, id: ExpenseId, e: Expense)
    ensures e in RemoveById(s, id) <==> e in s && e.id != id
  {
    if s != [] {
      RemoveByIdMembers(s[1..], id, e);
      assert s == [s[0]] + s[1..];
    }
  }

  /** Removal works piece by piece, so the survivors keep their order. */
  lemma {:induction false} RemoveByIdConcat(a: seq<Expense>, b: seq<Expense>, id: ExpenseId)
    ensures RemoveById(a + b, id) == RemoveById(a, id) + RemoveById(b, id)
  {
    if a != [] {
      RemoveByIdConcat(a[1..], b, id);
      assert (a + b)[1..] == a[1..] + b;
    } else {
      assert a + b == b;
    }
  }

  /** A list with no element of that id is left as it is. */
  lemma {:induction false} RemoveAbsentId(s: seq<Expense>, id: ExpenseId)
    requires forall e :: e in s ==> e.id != id
    ensures RemoveById(s, id) == s
  {
    if s != [] {
      assert s[0] in s;
      assert forall e :: e in s[1..] ==> e in s;
      RemoveAbsentId(s[1..], id);
      assert RemoveById(s, id) == [s[0]] + RemoveById(s[1..], id);
    }
  }

  /** Replacing a record and then deleting its id is the same as deleting
      the id straight away. */
  lemma {:induction false} ReplaceThenRemove(s: seq<Expense>, x: Expense)
    ensures RemoveById(ReplaceById(s, x), x.id) == RemoveById(s, x.id)
  {
    if s != [] {
      var r := ReplaceById(s, x);
      ReplaceThenRemove(s[1..], x);
      assert r[1..] == ReplaceById(s[1..], x);
    }
  }

  /** Replacing twice with the same record is replacing once. */
  lemma ReplaceIdempotent(s: seq<Expense>, x: Expense)
    ensures ReplaceById(ReplaceById(s, x), x) == ReplaceById(s, x)
  {
  }

  /** `expenseReducer`: each action sets the fields it names and leaves the
      others; an unrecognised action leaves the state as it is. */
  function Reduce(st: State, a: Action): (r: State)
    ensures a.SetLoading? ==> r == st.(isLoading := a.loading)
    ensures a.SetExpenses? ==>
              r == st.(expenses := a.listing.expenses,
                       pagination := Pagination(a.listing.currentPage, a.listing.totalPages, a.listing.total))
    ensures a.AddExpense? ==> r == st.(expenses := [a.added] + st.expenses)
    ensures a.UpdateExpense? ==> r == st.(expenses := ReplaceById(st.expenses, a.updated))
    ensures a.DeleteExpense? ==> r == st.(expenses := RemoveById(st.expenses, a.id))
    ensures a.SetStats? ==> r == st.(stats := Some(a.payload))
    ensures a.SetFilters? ==> r.filters.Keys == st.filters.Keys + a.changes.Keys
    ensures a.SetFilters? ==> forall k :: k in a.changes ==> r.filters[k] == a.changes[k]
    ensures a.SetFilters? ==> forall k :: k in st.filters && k !in a.changes ==> r.filters[k] == st.filters[k]
    ensures a.SetFilters? || a.ResetFilters? ==> r == st.(filters := r.filters)
    ensures a.ResetFilters? ==> r.filters == InitialState.filters
    ensures a.Unrecognised? ==> r == st
  {
    match a
    case SetLoading(on) => st.(isLoading := on)
    case SetExpenses(l) =>
      st.(expenses := l.expenses, pagination := Pagination(l.currentPage, l.totalPages, l.total))
    case AddExpense(x) => st.(expenses := [x] + st.expenses)
    case UpdateExpense(x) => st.(expenses := ReplaceById(st.expenses, x))
    case DeleteExpense(id) => st.(expenses := RemoveById(st.expenses, id))
    case SetStats(s) => st.(stats := Some(s))
    case SetFilters(changes) => st.(filters := st.filters + changes)
    case ResetFilters => st.(filters := InitialFilters)
    case Unrecognised(_) => st
  }

  /** Adding a record whose id the list does not hold and then deleting
      that id gives the list back. */
  lemma AddThenDelete(st: State, x: Expense)
    requires forall e :: e in st.expenses ==> e.id != x.id
    ensures Reduce(Reduce(st, AddExpense(x)), DeleteExpense(x.id)) == st
  {
    RemoveAbsentId(st.expenses, x.id);
    assert ([x] + st.expenses)[1..] == st.expenses;
  }

  /** Whatever filters were set, a reset brings back the initial ones. */
  lemma ResetUndoesFilters(st: State, changes: Filters)
    requires st.filters == InitialFilters
    ensures Reduce(Reduce(st, SetFilters(changes)), ResetFilters) == st
  {
  }

  /** Setting the same filters twice is setting them once. */
  lemma SetFiltersIdempotent(st: State, changes: Filters)
    ensures Reduce(Reduce(st, SetFilters(changes)), SetFilters(changes)) == Reduce(st, SetFilters(changes))
  {
  }

  // ---- Query parameters ----------------------------------------------------

  /** `fetchExpenses(page, filters)`: `page` and `limit: "10"` first, then
      the filters, whose keys override the two defaults. */
  function FetchParams(page: nat, filters: Filters): (r: map<string, string>)
    ensures r.Keys == {"page", "limit"} + filters.Keys
    ensures forall k :: k in filters ==> r[k] == filters[k]
    ensures "page" !in filters ==> r["page"] == Decimal.ToText(page)
    ensures "limit" !in filters ==> r["limit"] == "10"
  {
    map["page" := Decimal.ToText(page), "limit" := "10"] + filters
  }

  /** `page` or `limit`, when present, is a positive numeral. */
  predicate CountParamOk(params: map<string, string>, key: string) {
    key in params ==> Decimal.ParseNat(params[key]).Some? && Decimal.ParseNat(params[key]).value >= 1
  }

  function CountParam(params: map<string, string>, key: string): (r: Option<int>)
    requires CountParamOk(params, key)
    ensures r.Some? <==> key in params
    ensures r.Some? ==> r.value >= 1 && Decimal.ParseNat(params[key]) == Some(r.value)
  {
    if key in params then Some(Decimal.ParseNat(params[key]).value) else None
  }

  /** The query the listing handler reads from the parameters; only
      parameters whose page and limit are positive numerals are modelled. */
  function QueryOf(params: map<string, string>): (r: Option<ExpenseQuery.QueryParams>)
    ensures r.Some? <==> CountParamOk(params, "page") && CountParamOk(params, "limit")
    ensures r.Some? ==> (r.value.page.Some? ==> r.value.page.value >= 1)
                        && (r.value.limit.Some? ==> r.value.limit.value >= 1)
    ensures r.Some? ==> r.value.category == Lookup(params, "category")
                        && r.value.startDate == Lookup(params, "startDate")
                        && r.value.endDate == Lookup(params, "endDate")
                        && r.value.search == Lookup(params, "search")
  {
    if CountParamOk(params, "page") && CountParamOk(params, "limit") then
      Some(ExpenseQuery.QueryParams(
        CountParam(params, "page"), CountParam(params, "limit"),
        Lookup(params, "category"), Lookup(params, "startDate"),
        Lookup(params, "endDate"), Lookup(params, "search")))
    else None
  }

  /** The server reads back the page asked for and the limit of ten, unless
      the filters carry their own `page` or `limit`. */
  lemma FetchParamsReadBack(page: nat, filters: Filters)
    requires page >= 1
    requires "page" !in filters && "limit" !in filters
    ensures QueryOf(FetchParams(page, filters)).Some?
    ensures QueryOf(FetchParams(page, filters)).value.page == Some(page)
    ensures QueryOf(FetchParams(page, filters)).value.limit == Some(ExpenseQuery.DefaultLimit)
  {
    Decimal.ParseToText(page);
    Decimal.ParseToText(10);
    assert Decimal.ToText(10) == "10";
  }

  /** A `limit` among the filters wins over the default of ten. */
  lemma FilterLimitOverrides(filters: Filters, n: nat)
    requires n >= 1 && "page" !in filters && filters == map["limit" := Decimal.ToText(n)]
    ensures QueryOf(FetchParams(1, filters)).Some?
    ensures QueryOf(FetchParams(1, filters)).value.limit == Some(n)
  {
    Decimal.ParseToText(1);
    Decimal.ParseToText(n);
  }

  /** The initial filters ask for no category, date or search clause: the
      first page fetched with them lists the caller's records, all of them
      candidates. */
  lemma InitialFiltersListEverything(caller: UserId, e: Expense)
    ensures QueryOf(FetchParams(1, InitialFilters)).Some?
    ensures var q := QueryOf(FetchParams(1, InitialFilters)).value;
            && ExpenseQuery.BuildFilter(caller, q).Ok?
            && (ExpenseQuery.Matches(ExpenseQuery.BuildFilter(caller, q).value, e) <==> e.owner == caller)
  {
    InitialQuery();
    ExpenseQuery.UnconstrainedQueryMatchesAllOwn(caller, QueryOf(FetchParams(1, InitialFilters)).value, e);
  }

  /** The server's reading of the first page with the initial filters. */
  lemma InitialQuery()
    ensures QueryOf(FetchParams(1, InitialFilters)) ==
              Some(ExpenseQuery.QueryParams(Some(1), Some(10), Some("all"), Some(""), Some(""), Some("")))
  {
    FetchParamsReadBack(1, InitialFilters);
    InitialParams();
  }

  lemma InitialParams()
    ensures var params := FetchParams(1, InitialFilters);
            && params["page"] == Decimal.ToText(1) && params["limit"] == "10"
            && Lookup(params, "category") == Some("all") && Lookup(params, "startDate") == Some("")
            && Lookup(params, "endDate") == Some("") && Lookup(params, "search") == Some("")
  {
  }

  /** `fetchStats(year, month)`: each parameter is appended, in this order,
      only when it is truthy, that is given and not zero. */
  function StatsParams(year: Option<nat>, month: Option<nat>): (r: seq<(string, string)>)
    ensures year.Some? && year.value != 0 ==> ("year", Decimal.ToText(year.value)) in r
    ensures month.Some? && month.value != 0 ==> ("month", Decimal.ToText(month.value)) in r
    ensures forall p :: p in r ==> p.0 == "year" || p.0 == "month"
    ensures forall p :: p in r && p.0 == "year" ==> year.Some? && year.value != 0 && p.1 == Decimal.ToText(year.value)
    ensures forall p :: p in r && p.0 == "month" ==> month.Some? && month.value != 0 && p.1 == Decimal.ToText(month.value)
    ensures |r| == 2 ==> r[0].0 == "year" && r[1].0 == "month"
  {
    (if year.Some? && year.value != 0 then [("year", Decimal.ToText(year.value))] else [])
    + (if month.Some? && month.value != 0 then [("month", Decimal.ToText(month.value))] else [])
  }

  /** The number the statistics handler reads for a parameter. */
  function ReadParam(params: seq<(string, string)>, key: string): (r: Option<nat>)
    ensures r.Some? ==> exists i :: 0 <= i < |params| && params[i].0 == key
  {
    if params == [] then None
    else if params[0].0 == key then Decimal.ParseNat(params[0].1)
    else ReadParam(params[1..], key)
  }

  /** The server sees the year and month exactly when they were truthy, with
      their values; a zero year falls back to the server's current year. */
  lemma {:induction false} StatsParamsReadBack(year: Option<nat>, month: Option<nat>)
    ensures ReadParam(StatsParams(year, month), "year") ==
              (if year.Some? && year.value != 0 then year else None)
    ensures ReadParam(StatsParams(year, month), "month") ==
              (if month.Some? && month.value != 0 then month else None)
  {
    var p := StatsParams(year, month);
    if year.Some? && year.value != 0 {
      Decimal.ParseToText(year.value);
    }
    if month.Some? && month.value != 0 {
      Decimal.ParseToText(month.value);
      if year.Some? && year.value != 0 {
        assert p[1..] == [("month", Decimal.ToText(month.value))];
      }
    }
  }
}
