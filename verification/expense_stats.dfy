/** Spending statistics for one user over a year or one month of it: totals
    per category (largest first), totals per month over the whole year
    (January first) and the grand total of the period. */
module ExpenseStats {
  import opened Wrappers
  import opened Calendar
  import opened ExpenseSchema
  import Sorting

  datatype Period = Period(startDate: Date, endDate: Date)

  datatype CategoryTotal = CategoryTotal(category: string, total: real, count: nat)
  datatype MonthTotal = MonthTotal(month: int, total: real, count: nat)
  datatype Totals = Totals(total: real, count: nat)

  datatype Stats = Stats(
    categoryStats: seq<CategoryTotal>,
    monthlyStats: seq<MonthTotal>,
    totalExpenses: Totals,
    period: Period)

  /** The window of the statistics: the given month of `year`, or the whole
      year when no month is given, both ends inclusive. The bounds are built
      as the handler builds them, the end of a month as day 0 of the next,
      so a two-digit year denotes a year of the twentieth century. */
  function StatsPeriod(year: int, month: Option<int>): (p: Period)
    requires month.Some? ==> 1 <= month.value <= 12
    ensures month.Some? ==> p == Period(Date(FullYear(year), month.value, 1),
                                        Date(FullYear(year), month.value, DaysInMonth(FullYear(year), month.value)))
    ensures month.None? ==> p == Period(Date(FullYear(year), 1, 1), Date(FullYear(year), 12, 31))
    ensures IsValid(p.startDate) && IsValid(p.endDate)
  {
    if month.Some? then
      FirstOfMonth(year, month.value);
      LastOfMonth(year, month.value);
      Period(MakeDate(year, month.value - 1, 1), MakeDate(year, month.value, 0))
    else Period(MakeDate(year, 0, 1), MakeDate(year, 11, 31))
  }

  /** February 29 falls in the February window exactly in leap years. */
  lemma {:induction false} LeapDayInFebruaryWindow(year: int)
    ensures var p := StatsPeriod(year, Some(2));
            InRange(Date(FullYear(year), 2, 29), p.startDate, p.endDate) <==> IsLeapYear(FullYear(year))
  {
  }

  /** `?year=50` asks for 1950. */
  lemma TwoDigitYearWindow()
    ensures StatsPeriod(50, None) == Period(Date(1950, 1, 1), Date(1950, 12, 31))
  {
  }

  /** The records of `owner` dated within `p`, in store order. */
  function Within(store: seq<Expense>, owner: UserId, p: Period): (r: seq<Expense>)
    ensures |r| <= |store|
    ensures forall e :: e in r ==> e.owner == owner && InRange(e.date, p.startDate, p.endDate)
  {
    if store == [] then []
    else
      var e := store[0];
      (if e.owner == owner && InRange(e.date, p.startDate, p.endDate) then [e] else [])
      + Within(store[1..], owner, p)
  }

  function OfCategory(rs: seq<Expense>, c: string): seq<Expense>
  {
    if rs == [] then []
    else (if rs[0].category == c then [rs[0]] else []) + OfCategory(rs[1..], c)
  }

  /** The records whose date falls in month `m` (`$month` of the date), in
      order. */
  function InMonth(rs: seq<Expense>, m: int): (r: seq<Expense>)
    ensures |r| <= |rs|
  {
    if rs == [] then []
    else (if rs[0].date.month == m then [rs[0]] else []) + InMonth(rs[1..], m)
  }

  /** The month filter keeps exactly the records dated in month `m`. */
  lemma {:induction false} InMonthMembers(rs: seq<Expense>, m: int, e: Expense)
    ensures e in InMonth(rs, m) <==> e in rs && e.date.month == m
  {
    if rs != [] {
      InMonthMembers(rs[1..], m, e);
      assert rs == [rs[0]] + rs[1..];
    }
  }

  /** The period filter keeps exactly the caller's records inside the window. */
  lemma {:induction false} WithinMembers(store: seq<Expense>, owner: UserId, p: Period, e: Expense)
    ensures e in Within(store, owner, p) <==> e in store && e.owner == owner && InRange(e.date, p.startDate, p.endDate)
  {
    if store != [] {
      WithinMembers(store[1..], owner, p, e);
      assert store == [store[0]] + store[1..];
    }
  }

  lemma {:induction false} OfCategoryMembers(rs: seq<Expense>, c: string, e: Expense)
    ensures e in OfCategory(rs, c) <==> e in rs && e.category == c
  {
    if rs != [] {
      OfCategoryMembers(rs[1..], c, e);
      assert rs == [rs[0]] + rs[1..];
    }
  }

  function Amount(e: Expense): real { e.amount }
  function CategoryTotalOf(g: CategoryTotal): real { g.total }
  function CategoryCountOf(g: CategoryTotal): int { g.count }

  /** `$sum` of the amounts. */
  function SumAmounts(rs: seq<Expense>): real
  {
    Sorting.SumReal(rs, Amount)
  }

  /** With every amount positive, as the schema demands, the sum is positive
      exactly when there are records. */
  lemma {:induction false} PositiveSum(rs: seq<Expense>)
    ensures (forall e :: e in rs ==> e.amount > 0.0) ==> (SumAmounts(rs) > 0.0 <==> rs != [])
  {
    if rs != [] && forall e :: e in rs ==> e.amount > 0.0 {
      assert forall e :: e in rs[1..] ==> e in rs;
      PositiveSum(rs[1..]);
      assert rs[0] in rs;
    }
  }

  // ---- Category totals -------------------------------------------------

  /** The entry for category `k`, if the list has one. */
  function GroupFor(gs: seq<CategoryTotal>, k: string): (r: Option<CategoryTotal>)
    ensures r.Some? ==> r.value in gs && r.value.category == k
    ensures r.None? ==> forall g :: g in gs ==> g.category != k
  {
    if gs == [] then None
    else if gs[0].category == k then Some(gs[0])
    else GroupFor(gs[1..], k)
  }

  predicate DistinctCategories(gs: seq<CategoryTotal>) {
    forall i, j :: 0 <= i < j < |gs| ==> gs[i].category != gs[j].category
  }

  /** Accumulates one amount into the entry for `k`, creating it if absent. */
  function AddTo(gs: seq<CategoryTotal>, k: string, a: real): seq<CategoryTotal>
  {
    if gs == [] then [CategoryTotal(k, a, 1)]
    else if gs[0].category == k then [gs[0].(total := gs[0].total + a, count := gs[0].count + 1)] + gs[1..]
    else [gs[0]] + AddTo(gs[1..], k, a)
  }

  /** The entry for `k` after one more amount `a`: the old entry grown, or a
      new one. */
  function Bump(g: Option<CategoryTotal>, k: string, a: real): CategoryTotal {
    if g.Some? then CategoryTotal(k, g.value.total + a, g.value.count + 1) else CategoryTotal(k, a, 1)
  }

  /** Adding an amount touches only its own category's entry. */
  lemma {:induction false} AddToLookup(gs: seq<CategoryTotal>, k: string, a: real, k': string)
    ensures GroupFor(AddTo(gs, k, a), k') ==
              if k' != k then GroupFor(gs, k') else Some(Bump(GroupFor(gs, k), k, a))
  {
    if k' != k {
      AddToOther(gs, k, a, k');
    } else {
      AddToSame(gs, k, a);
    }
  }

  lemma {:induction false} AddToOther(gs: seq<CategoryTotal>, k: string, a: real, k': string)
    requires k' != k
    ensures GroupFor(AddTo(gs, k, a), k') == GroupFor(gs, k')
  {
    if gs != [] {
      var r := AddTo(gs, k, a);
      if gs[0].category == k {
        assert r[1..] == gs[1..];
      } else {
        AddToOther(gs[1..], k, a, k');
        assert r[1..] == AddTo(gs[1..], k, a);
      }
    }
  }

  lemma {:induction false} AddToSame(gs: seq<CategoryTotal>, k: string, a: real)
    ensures GroupFor(AddTo(gs, k, a), k) == Some(Bump(GroupFor(gs, k), k, a))
  {
    if gs != [] {
      if gs[0].category == k {
        AddToSameHead(gs, k, a);
      } else {
        AddToSame(gs[1..], k, a);
        var r := AddTo(gs, k, a);
        assert r[0] == gs[0] && r[1..] == AddTo(gs[1..], k, a);
      }
    }
  }

  lemma AddToSameHead(gs: seq<CategoryTotal>, k: string, a: real)
    requires gs != [] && gs[0].category == k
    ensures GroupFor(AddTo(gs, k, a), k) == Some(Bump(GroupFor(gs, k), k, a))
  {
    var r := AddTo(gs, k, a);
    assert r[0] == Bump(Some(gs[0]), k, a);
  }

  lemma {:induction false} AddToMembers(gs: seq<CategoryTotal>, k: string, a: real)
    ensures forall g :: g in AddTo(gs, k, a) ==> g.category == k || g in gs
  {
    if gs != [] && gs[0].category != k {
      AddToMembers(gs[1..], k, a);
      assert AddTo(gs, k, a) == [gs[0]] + AddTo(gs[1..], k, a);
    }
  }

  /** Adding an amount never gives a category a second entry. */
  lemma {:induction false} AddToDistinct(gs: seq<CategoryTotal>, k: string, a: real)
    requires DistinctCategories(gs)
    ensures DistinctCategories(AddTo(gs, k, a))
  {
    if gs != [] {
      var r := AddTo(gs, k, a);
      if gs[0].category == k {
        assert r[1..] == gs[1..];
      } else {
        var t := AddTo(gs[1..], k, a);
        AddToDistinct(gs[1..], k, a);
        AddToMembers(gs[1..], k, a);
        assert r == [gs[0]] + t;
        forall j | 0 < j < |r| ensures r[0].category != r[j].category {
          assert r[j] == t[j - 1] && t[j - 1] in t;
          if r[j].category != k {
            var i :| 0 <= i < |gs[1..]| && gs[1..][i] == r[j];
            assert gs[i + 1] == r[j];
          }
        }
      }
    }
  }

  lemma {:induction false} AddToSums(gs: seq<CategoryTotal>, k: string, a: real)
    ensures Sorting.SumReal(AddTo(gs, k, a), CategoryTotalOf) == Sorting.SumReal(gs, CategoryTotalOf) + a
    ensures Sorting.SumInt(AddTo(gs, k, a), CategoryCountOf) == Sorting.SumInt(gs, CategoryCountOf) + 1
  {
    if gs != [] {
      if gs[0].category == k {
        assert AddTo(gs, k, a)[1..] == gs[1..];
      } else {
        AddToSums(gs[1..], k, a);
        assert AddTo(gs, k, a)[1..] == AddTo(gs[1..], k, a);
      }
    }
  }

  /** `$group` by category: one entry per category present, accumulating
      amount and count. */
  function GroupByCategory(rs: seq<Expense>): (r: seq<CategoryTotal>)
    ensures DistinctCategories(r)
  {
    if rs == [] then []
    else
      var tail := GroupByCategory(rs[1..]);
      AddToDistinct(tail, rs[0].category, rs[0].amount);
      AddTo(tail, rs[0].category, rs[0].amount)
  }

  /** Each category's entry holds the sum and number of that category's
      records, and there is an entry exactly for the categories present. */
  lemma {:induction false} GroupByCategoryLookup(rs: seq<Expense>, k: string)
    ensures GroupFor(GroupByCategory(rs), k) ==
              if OfCategory(rs, k) == [] then None
              else Some(CategoryTotal(k, SumAmounts(OfCategory(rs, k)), |OfCategory(rs, k)|))
  {
    if rs != [] {
      var e := rs[0];
      var tail := GroupByCategory(rs[1..]);
      GroupByCategoryLookup(rs[1..], k);
      AddToLookup(tail, e.category, e.amount, k);
      assert GroupByCategory(rs) == AddTo(tail, e.category, e.amount);
      if e.category == k {
        EntryStep(rs, k);
      } else {
        assert OfCategory(rs, k) == OfCategory(rs[1..], k);
      }
    }
  }

  /** A record of category `k` at the head grows `k`'s entry by its amount. */
  lemma EntryStep(rs: seq<Expense>, k: string)
    requires rs != [] && rs[0].category == k
    ensures var o := OfCategory(rs, k);
            var p := OfCategory(rs[1..], k);
            && o != []
            && CategoryTotal(k, SumAmounts(o), |o|) ==
                 Bump(if p == [] then None else Some(CategoryTotal(k, SumAmounts(p), |p|)), k, rs[0].amount)
  {
    var o := OfCategory(rs, k);
    var p := OfCategory(rs[1..], k);
    assert o == [rs[0]] + p;
    assert o[1..] == p;
    assert SumAmounts(o) == rs[0].amount + SumAmounts(p);
  }

  /** The per-category totals and counts add up to the totals of all records. */
  lemma {:induction false} GroupByCategorySums(rs: seq<Expense>)
    ensures Sorting.SumReal(GroupByCategory(rs), CategoryTotalOf) == SumAmounts(rs)
    ensures Sorting.SumInt(GroupByCategory(rs), CategoryCountOf) == |rs|
  {
    if rs != [] {
      GroupByCategorySums(rs[1..]);
      AddToSums(GroupByCategory(rs[1..]), rs[0].category, rs[0].amount);
    }
  }

  /** `categoryStats`: the category entries sorted by total, largest first. */
  function CategoryStats(rs: seq<Expense>): (r: seq<CategoryTotal>)
    ensures Sorting.SortedDesc(r, CategoryTotalOf)
    ensures Sorting.SumReal(r, CategoryTotalOf) == SumAmounts(rs)
    ensures Sorting.SumInt(r, CategoryCountOf) == |rs|
    ensures forall g :: g in r ==> g.count >= 1 && g.count == |OfCategory(rs, g.category)|
                                   && g.total == SumAmounts(OfCategory(rs, g.category))
    ensures forall e :: e in rs ==> exists g :: g in r && g.category == e.category
  {
    var gs := GroupByCategory(rs);
    var r := Sorting.SortDesc(gs, CategoryTotalOf);
    GroupByCategorySums(rs);
    Sorting.SortKeepsSums(gs, CategoryTotalOf, CategoryTotalOf, CategoryCountOf);
    assert forall g :: g in r ==> g.count >= 1 && g.count == |OfCategory(rs, g.category)|
                                  && g.total == SumAmounts(OfCategory(rs, g.category)) by {
      forall g | g in r
        ensures g.count >= 1 && g.count == |OfCategory(rs, g.category)|
                && g.total == SumAmounts(OfCategory(rs, g.category))
      {
        Sorting.SortKeepsElements(gs, CategoryTotalOf, g);
        GroupByCategoryLookup(rs, g.category);
        DistinctLookup(gs, g);
      }
    }
    assert forall e :: e in rs ==> exists g :: g in r && g.category == e.category by {
      forall e | e in rs ensures exists g :: g in r && g.category == e.category {
        GroupByCategoryLookup(rs, e.category);
        OfCategoryMembers(rs, e.category, e);
        var g := GroupFor(gs, e.category).value;
        Sorting.SortKeepsElements(gs, CategoryTotalOf, g);
      }
    }
    r
  }

  lemma DistinctLookup(gs: seq<CategoryTotal>, g: CategoryTotal)
    requires DistinctCategories(gs) && g in gs
    ensures GroupFor(gs, g.category) == Some(g)
  {
    if gs[0] != g {
      assert g in gs[1..];
      DistinctLookup(gs[1..], g);
    }
  }

  // ---- Monthly totals ----------------------------------------------------

  function MonthTotalFor(rs: seq<Expense>, m: int): MonthTotal {
    MonthTotal(m, SumAmounts(InMonth(rs, m)), |InMonth(rs, m)|)
  }

  /** `$group` by month followed by `$sort` on the month, for the months
      from `m` to December. */
  function MonthsFrom(rs: seq<Expense>, m: int): (r: seq<MonthTotal>)
    requires 1 <= m <= 13
    ensures forall i :: 0 <= i < |r| ==> m <= r[i].month <= 12 && r[i] == MonthTotalFor(rs, r[i].month)
                                         && r[i].count >= 1
    ensures forall i, j :: 0 <= i < j < |r| ==> r[i].month < r[j].month
    decreases 13 - m
  {
    if m == 13 then []
    else
      var rest := MonthsFrom(rs, m + 1);
      if InMonth(rs, m) == [] then rest else [MonthTotalFor(rs, m)] + rest
  }

  /** Every month from `m` on that has records gets its entry. */
  lemma {:induction false} MonthsFromCovers(rs: seq<Expense>, m: int, n: int)
    requires 1 <= m <= n <= 12 && InMonth(rs, n) != []
    ensures MonthTotalFor(rs, n) in MonthsFrom(rs, m)
    decreases 13 - m
  {
    var rest := MonthsFrom(rs, m + 1);
    if m == n {
      assert MonthsFrom(rs, m) == [MonthTotalFor(rs, m)] + rest;
    } else {
      MonthsFromCovers(rs, m + 1, n);
      if InMonth(rs, m) != [] {
        assert MonthsFrom(rs, m) == [MonthTotalFor(rs, m)] + rest;
      } else {
        assert MonthsFrom(rs, m) == rest;
      }
    }
  }

  /** `monthlyStats`: one entry per month that has records, January first. */
  function MonthlyStats(rs: seq<Expense>): (r: seq<MonthTotal>)
    ensures forall i :: 0 <= i < |r| ==> 1 <= r[i].month <= 12 && r[i] == MonthTotalFor(rs, r[i].month)
                                         && r[i].count >= 1
    ensures forall i, j :: 0 <= i < j < |r| ==> r[i].month < r[j].month
  {
    MonthsFrom(rs, 1)
  }

  /** Every month of the year that has records has its entry. */
  lemma MonthlyStatsCovers(rs: seq<Expense>, n: int)
    requires 1 <= n <= 12 && InMonth(rs, n) != []
    ensures MonthTotalFor(rs, n) in MonthlyStats(rs)
  {
    MonthsFromCovers(rs, 1, n);
  }

  // ---- Grand total ---------------------------------------------------------

  /** `totalExpenses`: the aggregate's single group, or `{total: 0, count: 0}`
      when the aggregate returns no group because nothing matched. */
  function TotalOf(rs: seq<Expense>): (t: Totals)
    ensures t.count == |rs| && t.total == SumAmounts(rs)
    ensures rs == [] ==> t == Totals(0.0, 0)
  {
    if rs == [] then Totals(0.0, 0) else Totals(SumAmounts(rs), |rs|)
  }

  /** The answer to `GET /stats`: `year` defaults to the current year; the
      category and grand totals cover the period, the monthly totals always
      cover the whole year. */
  function GetExpenseStats(store: seq<Expense>, caller: UserId, currentYear: int,
                           year: Option<int>, month: Option<int>): (s: Stats)
    requires month.Some? ==> 1 <= month.value <= 12
    ensures s.period == StatsPeriod(year.GetOr(currentYear), month)
    ensures Sorting.SumReal(s.categoryStats, CategoryTotalOf) == s.totalExpenses.total
    ensures Sorting.SumInt(s.categoryStats, CategoryCountOf) == s.totalExpenses.count
    ensures Sorting.SortedDesc(s.categoryStats, CategoryTotalOf)
    ensures forall i, j :: 0 <= i < j < |s.monthlyStats| ==> s.monthlyStats[i].month < s.monthlyStats[j].month
    ensures s.totalExpenses.count == |Within(store, caller, s.period)|
    ensures s.totalExpenses.total == SumAmounts(Within(store, caller, s.period))
    ensures Within(store, caller, s.period) == [] ==>
              s.categoryStats == [] && s.totalExpenses == Totals(0.0, 0)
    ensures s.categoryStats == CategoryStats(Within(store, caller, s.period))
    ensures s.monthlyStats == MonthlyStats(Within(store, caller, StatsPeriod(year.GetOr(currentYear), None)))
  {
    var y := year.GetOr(currentYear);
    var period := StatsPeriod(y, month);
    var narrowed := Within(store, caller, period);
    var wholeYear := Within(store, caller, StatsPeriod(y, None));
    Stats(CategoryStats(narrowed), MonthlyStats(wholeYear), TotalOf(narrowed), period)
  }

  /** Asked for one month, the answer's monthly view still has an entry for
      that month whenever the period holds records, and that entry counts at
      least the period's records. */
  lemma MonthEntryCoversPeriod(store: seq<Expense>, caller: UserId, currentYear: int, year: Option<int>, m: int)
    requires 1 <= m <= 12
    ensures var s := GetExpenseStats(store, caller, currentYear, year, Some(m));
            s.totalExpenses.count > 0 ==>
              exists g :: g in s.monthlyStats && g.month == m && g.count >= s.totalExpenses.count
  {
    var y := year.GetOr(currentYear);
    var s := GetExpenseStats(store, caller, currentYear, year, Some(m));
    var wholeYear := Within(store, caller, StatsPeriod(y, None));
    MonthWithinYear(store, caller, y, m);
    if s.totalExpenses.count > 0 {
      MonthlyStatsCovers(wholeYear, m);
      assert MonthTotalFor(wholeYear, m) in s.monthlyStats;
    }
  }

  /** A day in the window of one month lies in that month and in the window
      of its year. */
  lemma MonthWindowInsideYear(d: Date, year: int, month: int)
    requires 1 <= month <= 12
    requires InRange(d, Date(year, month, 1), Date(year, month, DaysInMonth(year, month)))
    ensures d.month == month
    ensures InRange(d, Date(year, 1, 1), Date(year, 12, 31))
  {
  }

  /** Narrowing the window to one month never drops records of that month
      from the whole-year view: the year view counts at least as many. */
  lemma {:induction false} MonthWithinYear(store: seq<Expense>, owner: UserId, year: int, month: int)
    requires 1 <= month <= 12
    ensures |Within(store, owner, StatsPeriod(year, Some(month)))|
            <= |InMonth(Within(store, owner, StatsPeriod(year, None)), month)|
  {
    if store != [] {
      var e := store[0];
      var mp := StatsPeriod(year, Some(month));
      var yp := StatsPeriod(year, None);
      MonthWithinYear(store[1..], owner, year, month);
      var wm := Within(store, owner, mp);
      var wy := Within(store, owner, yp);
      if e.owner == owner && InRange(e.date, mp.startDate, mp.endDate) {
        MonthWindowInsideYear(e.date, FullYear(year), month);
        assert wm == [e] + Within(store[1..], owner, mp);
        assert wy == [e] + Within(store[1..], owner, yp);
        assert wy[1..] == Within(store[1..], owner, yp);
        assert InMonth(wy, month) == [e] + InMonth(Within(store[1..], owner, yp), month);
      } else if e.owner == owner && InRange(e.date, yp.startDate, yp.endDate) {
        assert wm == Within(store[1..], owner, mp);
        assert wy == [e] + Within(store[1..], owner, yp);
        assert wy[1..] == Within(store[1..], owner, yp);
        assert |InMonth(wy, month)| >= |InMonth(Within(store[1..], owner, yp), month)|;
      } else {
        assert wm == Within(store[1..], owner, mp);
        assert wy == Within(store[1..], owner, yp);
      }
    }
  }

  /** When every record is a real day, the records of the month window are
      exactly the whole-year records of that month, so the grand total's
      count equals the count of that month's monthly entry. */
  lemma {:induction false} MonthWindowIsYearMonth(store: seq<Expense>, owner: UserId, year: int, month: int)
    requires 1 <= month <= 12
    requires forall e :: e in store ==> IsValid(e.date)
    ensures Within(store, owner, StatsPeriod(year, Some(month)))
            == InMonth(Within(store, owner, StatsPeriod(year, None)), month)
  {
    if store != [] {
      var e := store[0];
      var mp := StatsPeriod(year, Some(month));
      var yp := StatsPeriod(year, None);
      assert forall x :: x in store[1..] ==> x in store;
      MonthWindowIsYearMonth(store[1..], owner, year, month);
      MonthWindowExact(e.date, FullYear(year), month);
      YearWindowExact(e.date, FullYear(year));
      var wy := Within(store, owner, yp);
      if e.owner == owner && InRange(e.date, yp.startDate, yp.endDate) {
        assert wy == [e] + Within(store[1..], owner, yp);
        assert wy[1..] == Within(store[1..], owner, yp);
      } else {
        assert wy == Within(store[1..], owner, yp);
      }
    }
  }

  /** The scenario of three expenses in 2024 (food 10 on March 5, food 5 on
      March 20, travel 100 on June 1) viewed for March: one category entry,
      food with 15 over 2 records; the grand total 15 over 2; the year view
      has March and June. */
  lemma {:induction false} MarchScenario(u: UserId, e1: Expense, e2: Expense, e3: Expense)
    requires e1.owner == u && e2.owner == u && e3.owner == u
    requires e1.category == "Food" && e1.amount == 10.0 && e1.date == Date(2024, 3, 5)
    requires e2.category == "Food" && e2.amount == 5.0 && e2.date == Date(2024, 3, 20)
    requires e3.category == "Travel" && e3.amount == 100.0 && e3.date == Date(2024, 6, 1)
    ensures var s := GetExpenseStats([e1, e2, e3], u, 2024, None, Some(3));
            && s.categoryStats == [CategoryTotal("Food", 15.0, 2)]
            && s.totalExpenses == Totals(15.0, 2)
            && s.monthlyStats == [MonthTotal(3, 15.0, 2), MonthTotal(6, 100.0, 1)]
  {
    MarchWindow(u, e1, e2, e3);
    MarchYearView(u, e1, e2, e3);
    var all := [e1, e2, e3];
    assert [e1, e2][1..] == [e2] && [e2][1..] == [];
    assert GroupByCategory([e2]) == [CategoryTotal("Food", 5.0, 1)];
    assert GroupByCategory([e1, e2]) == [CategoryTotal("Food", 15.0, 2)];
    assert Sorting.SumReal([e2][1..], Amount) == 0.0;
    assert SumAmounts([e2]) == 5.0;
    assert SumAmounts([e1, e2]) == 15.0;
  }

  lemma {:induction false} MarchWindow(u: UserId, e1: Expense, e2: Expense, e3: Expense)
    requires e1.owner == u && e2.owner == u && e3.owner == u
    requires e1.date == Date(2024, 3, 5) && e2.date == Date(2024, 3, 20) && e3.date == Date(2024, 6, 1)
    ensures Within([e1, e2, e3], u, StatsPeriod(2024, Some(3))) == [e1, e2]
    ensures Within([e1, e2, e3], u, StatsPeriod(2024, None)) == [e1, e2, e3]
  {
    var march := StatsPeriod(2024, Some(3));
    var yr := StatsPeriod(2024, None);
    var all := [e1, e2, e3];
    assert all[1..] == [e2, e3] && [e2, e3][1..] == [e3] && [e3][1..] == [];
    assert Within([e3], u, march) == [];
    assert Within([e2, e3], u, march) == [e2];
    assert Within([e3], u, yr) == [e3];
    assert Within([e2, e3], u, yr) == [e2, e3];
  }

  lemma {:induction false} MarchYearView(u: UserId, e1: Expense, e2: Expense, e3: Expense)
    requires e1.amount == 10.0 && e1.date == Date(2024, 3, 5)
    requires e2.amount == 5.0 && e2.date == Date(2024, 3, 20)
    requires e3.amount == 100.0 && e3.date == Date(2024, 6, 1)
    ensures MonthlyStats([e1, e2, e3]) == [MonthTotal(3, 15.0, 2), MonthTotal(6, 100.0, 1)]
  {
    var all := [e1, e2, e3];
    assert all[1..] == [e2, e3] && [e2, e3][1..] == [e3] && [e3][1..] == [];
    assert InMonth([e3], 3) == [] && InMonth([e2, e3], 3) == [e2];
    assert InMonth(all, 3) == [e1, e2];
    assert InMonth([e2], 6) == [] && InMonth([e2, e3], 6) == [e3];
    assert InMonth(all, 6) == [e3];
    assert [e1, e2][1..] == [e2] && [e2][1..] == [];
    assert Sorting.SumReal([e2][1..], Amount) == 0.0;
    assert Sorting.SumReal([e3][1..], Amount) == 0.0;
    assert SumAmounts([e2]) == 5.0;
    assert SumAmounts([e1, e2]) == 15.0;
    assert SumAmounts([e3]) == 100.0;
    MonthsFromTail(all);
    assert MonthsFrom(all, 6) == [MonthTotal(6, 100.0, 1)];
    NoRecordsInMonth(all, 5);
    NoRecordsInMonth(all, 4);
    NoRecordsInMonth(all, 2);
    NoRecordsInMonth(all, 1);
    assert MonthsFrom(all, 5) == [MonthTotal(6, 100.0, 1)];
    assert MonthsFrom(all, 4) == [MonthTotal(6, 100.0, 1)];
    assert MonthsFrom(all, 3) == [MonthTotal(3, 15.0, 2), MonthTotal(6, 100.0, 1)];
  }

  lemma MonthsFromTail(rs: seq<Expense>)
    requires forall e :: e in rs ==> e.date.month < 7
    ensures MonthsFrom(rs, 7) == []
  {
    NoRecordsInMonth(rs, 12);
    NoRecordsInMonth(rs, 11);
    NoRecordsInMonth(rs, 10);
    NoRecordsInMonth(rs, 9);
    NoRecordsInMonth(rs, 8);
    NoRecordsInMonth(rs, 7);
    assert MonthsFrom(rs, 12) == [];
    assert MonthsFrom(rs, 11) == [];
    assert MonthsFrom(rs, 10) == [];
    assert MonthsFrom(rs, 9) == [];
    assert MonthsFrom(rs, 8) == [];
  }

  /** A month none of whose records are present has no records. */
  lemma {:induction false} NoRecordsInMonth(rs: seq<Expense>, m: int)
    requires forall e :: e in rs ==> e.date.month != m
    ensures InMonth(rs, m) == []
  {
    if rs != [] {
      assert forall e :: e in rs[1..] ==> e in rs;
      NoRecordsInMonth(rs[1..], m);
    }
  }
}
