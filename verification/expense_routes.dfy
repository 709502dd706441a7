/** The expense router: the request validation rules applied to bodies on
    create and update, and the route table, resolved first match first. */
module ExpenseRoutes {
  import opened Wrappers
  import Text
  import FullDate
  import opened ExpenseSchema

  /** The category list of the request rules, written out separately from
      the schema's enumeration. */
  const RequestCategories: seq<string> := [
    "Food & Dining", "Transportation", "Shopping", "Entertainment", "Bills & Utilities",
    "Healthcare", "Education", "Travel", "Business", "Other"
  ]
  const RequestTitleMin := 1
  const RequestTitleMax := 100
  const RequestAmountMin: real := 0.01

  /** The request rule for field `f` rejects body `b`. A missing field reads
      as the empty string, which every rule rejects. Dates are accepted in
      the `YYYY-MM-DD` form. */
  predicate RequestRejects(b: Body, f: Field) {
    match f
    case Title =>
      b.title.None? || !(RequestTitleMin <= |Text.Trim(b.title.value)| <= RequestTitleMax)
    case Amount => b.amount.None? || b.amount.value.NaN? || b.amount.value.value < RequestAmountMin
    case CategoryField => b.category.None? || b.category.value !in RequestCategories
    case DateField => b.date.None? || FullDate.Parse(b.date.value).None?
    case _ => false
  }

  /** The fields the request rules reject; the handlers answer 400 with these
      when the set is not empty. */
  function RequestErrors(b: Body): (errs: set<Field>)
    ensures forall f :: f in errs <==> RequestRejects(b, f)
    ensures errs <= {Title, Amount, CategoryField, DateField}
  {
    set f | f in AllFields && RequestRejects(b, f)
  }

  /** The two category lists agree. */
  lemma CategoryListsAgree()
    ensures RequestCategories == Categories
  {
  }

  /** A body that passes the request rules also passes the schema's title,
      amount, category and date rules, both when a document is created from
      it and when a record is updated with it. */
  lemma {:induction false} RequestRulesImplySchemaRules(b: Body)
    requires RequestErrors(b) == {}
    ensures forall f :: f in {Title, Amount, CategoryField, DateField} ==> !CreateRejects(b, f)
    ensures forall f :: f in {Title, Amount, CategoryField, DateField} ==> !UpdateRejects(b, f)
  {
    assert !RequestRejects(b, Title) && !RequestRejects(b, Amount);
    assert !RequestRejects(b, CategoryField) && !RequestRejects(b, DateField);
    CategoryListsAgree();
  }

  /** Request rules and schema rules disagree on nothing they both check: a
      body the schema rejects on title, amount or category is also rejected
      by the request rules. */
  lemma {:induction false} SchemaRejectionIsRequestRejection(b: Body, f: Field)
    requires f in {Title, Amount, CategoryField}
    requires CreateRejects(b, f)
    ensures RequestRejects(b, f)
  {
    CategoryListsAgree();
  }

  datatype Verb = GET | POST | PUT | DELETE

  /** A path pattern relative to the router's mount point: `/`, a fixed
      segment such as `/stats`, or a parameter segment `/:id`. */
  datatype Pattern = Root | Literal(segment: string) | Param

  datatype Handler = GetExpenses | GetExpenseStats | GetExpenseById
                   | CreateExpense | UpdateExpense | DeleteExpense

  datatype Route = Route(verb: Verb, pattern: Pattern, validated: bool, handler: Handler)

  /** The routes in registration order; `validated` marks the ones that run
      the request rules before their handler. */
  const Routes: seq<Route> := [
    Route(GET, Root, false, GetExpenses),
    Route(GET, Literal("stats"), false, GetExpenseStats),
    Route(GET, Param, false, GetExpenseById),
    Route(POST, Root, true, CreateExpense),
    Route(PUT, Param, true, UpdateExpense),
    Route(DELETE, Param, false, DeleteExpense)
  ]

  /** A path, as its non-empty segments below the mount point, matches a
      pattern. The router is not case-sensitive, so a literal segment
      matches in any mix of upper and lower case. */
  predicate PatternMatches(p: Pattern, path: seq<string>) {
    match p
    case Root => path == []
    case Literal(s) => |path| == 1 && Text.Lower(path[0]) == Text.Lower(s)
    case Param => |path| == 1 && path[0] != ""
  }

  predicate RouteMatches(r: Route, verb: Verb, path: seq<string>) {
    r.verb == verb && PatternMatches(r.pattern, path)
  }

  /** Index of the first route at or after `from` that matches. */
  function FirstMatchFrom(routes: seq<Route>, verb: Verb, path: seq<string>, from: nat): (r: Option<nat>)
    requires from <= |routes|
    ensures r.Some? ==> from <= r.value < |routes| && RouteMatches(routes[r.value], verb, path)
    ensures r.Some? ==> forall j :: from <= j < r.value ==> !RouteMatches(routes[j], verb, path)
    ensures r.None? ==> forall j :: from <= j < |routes| ==> !RouteMatches(routes[j], verb, path)
    decreases |routes| - from
  {
    if from == |routes| then None
    else if RouteMatches(routes[from], verb, path) then Some(from)
    else FirstMatchFrom(routes, verb, path, from + 1)
  }

  /** The route that serves a request: the first registered one matching its
      verb and path, or none (the request falls through the router). */
  function Resolve(verb: Verb, path: seq<string>): (r: Option<Route>)
    ensures r.Some? ==> exists i :: 0 <= i < |Routes| && Routes[i] == r.value
                                    && RouteMatches(Routes[i], verb, path)
                                    && forall j :: 0 <= j < i ==> !RouteMatches(Routes[j], verb, path)
    ensures r.None? <==> forall j :: 0 <= j < |Routes| ==> !RouteMatches(Routes[j], verb, path)
  {
    var i := FirstMatchFrom(Routes, verb, path, 0);
    if i.Some? then Some(Routes[i.value]) else None
  }

  /** `GET /stats` reaches the statistics handler although `/:id` would also
      match it: the statistics route is registered first. */
  lemma StatsRouteShadowsId()
    ensures RouteMatches(Routes[2], GET, ["stats"])
    ensures Resolve(GET, ["stats"]) == Some(Route(GET, Literal("stats"), false, GetExpenseStats))
  {
    assert RouteMatches(Routes[1], GET, ["stats"]);
  }

  /** The statistics route answers `stats` written in any case. */
  lemma StatsRouteIgnoresCase()
    ensures Resolve(GET, ["STATS"]).value.handler == GetExpenseStats
    ensures Resolve(GET, ["Stats"]).value.handler == GetExpenseStats
  {
    assert RouteMatches(Routes[1], GET, ["STATS"]);
    assert RouteMatches(Routes[1], GET, ["Stats"]);
  }

  /** Every other single segment after `GET` is taken as an expense id. */
  lemma GetByIdRoute(id: string)
    requires id != "" && Text.Lower(id) != Text.Lower("stats")
    ensures Resolve(GET, [id]) == Some(Route(GET, Param, false, GetExpenseById))
  {
    assert RouteMatches(Routes[2], GET, [id]);
  }

  /** The request rules run exactly on create (`POST /`) and update
      (`PUT /:id`); reads and deletes are never validated. */
  lemma {:induction false} ValidationOnlyOnWrites(verb: Verb, path: seq<string>)
    requires Resolve(verb, path).Some?
    ensures Resolve(verb, path).value.validated <==> (verb == POST || verb == PUT)
    ensures Resolve(verb, path).value.validated ==>
              Resolve(verb, path).value.handler in {CreateExpense, UpdateExpense}
  {
    var r := Resolve(verb, path).value;
    var i :| 0 <= i < |Routes| && Routes[i] == r && RouteMatches(Routes[i], verb, path);
    assert r.verb == verb;
    if verb == POST {
      assert i == 3;
    } else if verb == PUT {
      assert i == 4;
    }
  }
}
