# Expense tracker: a Dafny model of its core

This project models the core of a personal expense tracker. The server side
is an Express router over a Mongoose `Expense` collection. The client side
is React state and forms. The model covers:

- the `Expense` schema: required fields, bounds, enumerations, trimming,
  defaults and the conditional `recurringType`;
- the router: validation rules for create and update, and the six routes
  resolved first match first;
- the handlers, always scoped to the signed-in caller:
  - the listing: filter, newest-first sort, one page, match and page counts;
  - the statistics: per category, per month and overall totals for a year
    or a month window;
  - get, create, update and delete by id;
- the client's expense reducer, with the query parameters it sends;
- the client's sign-in reducer, with the browser's stored token and the
  start-up check;
- the expense dialog, and the registration and sign-in forms: validation,
  dismissing messages while typing, the password strength meter, and what
  a valid submission sends.

The store is a sequence of records and amounts are exact reals. Days are
`(year, month, day)` values ordered as the calendar orders them. Dates in
request bodies and forms are `YYYY-MM-DD` text, the full-date form of
section 5.6 of RFC 3339. Reading a number from text and printing one are
parameters, because the model has no floating point.

Modules, one per file: `Wrappers`, `Text`, `Calendar`, `FullDate`,
`Decimal`, `Sorting` (shared vocabulary); `ExpenseSchema`, `ExpenseRoutes`,
`ExpenseQuery`, `ExpenseStats`, `ExpenseCrud` (server);
`ExpenseContext`, `AuthContext`, `FormErrors`, `EmailPattern`,
`ExpenseModal`, `RegisterPage`, `LoginPage` (client).

## Model

| member | source | states |
|---|---|---|
| Text.TrimSpec | backend/models/Expense.js:13 | trimming removes exactly the leading and trailing white space: the result is a slice of the input with no white space at either end, and every character removed is white space |
| Text.TrimIdempotent | backend/models/Expense.js:39 | trimming a trimmed value changes nothing, so a stored title or description saved again stays as it is |
| Text.Trim | backend/models/Expense.js:13 | trimming never lengthens a value, and what is left neither starts nor ends with white space |
| Calendar.LastOfMonth | backend/controllers/expenseController.js:144 | `new Date(year, month, 0)` with day 0 is the last day of `month`: 28, 29, 30 or 31 as the month and leap year demand, in year 1900 plus `year` when `year` is from 0 to 99 |
| Calendar.FirstOfMonth | backend/controllers/expenseController.js:143 | `new Date(year, month - 1, 1)` is the first day of `month`, in year 1900 plus `year` when `year` is from 0 to 99 |
| Calendar.MakeDate | backend/controllers/expenseController.js:143-144 | `new Date(year, monthIndex, day)` is a real day: for day 1 or later it is that day of month `monthIndex + 1`, with index 12 rolling into January of the next year; day 0 is the last day of the month before; a year from 0 to 99 means 1900 plus it |
| Calendar.TwoDigitYears | backend/controllers/expenseController.js:143-144 | year 50 means 1950 and year 99 means 1999, but year 100 is itself; day 0 of March 2024 is 29 February |
| Calendar.DaysInMonthTable | backend/controllers/expenseController.js:144 | February has 29 days exactly in leap years; April, June, September and November have 30; the others 31 |
| Calendar.MonthWindowExact | backend/controllers/expenseController.js:143-144 | a real day lies in the window from the first to the last day of a month exactly when it is in that year and month |
| Calendar.YearWindowExact | backend/controllers/expenseController.js:171 | a real day lies between 1 January and 31 December of a year exactly when it is in that year |
| Calendar.OrdinalMonotone | backend/controllers/expenseController.js:28 | ordering days by year, month and day agrees with counting days on a line, so "newest first" is the calendar order |
| FullDate.ParseFormat | frontend/src/components/ExpenseModal.jsx:46 | a day written as `YYYY-MM-DD` reads back as the same day |
| FullDate.FormatParse | backend/routes/expenses.js:33 | every text accepted as a full date is exactly the `YYYY-MM-DD` text of the day it denotes |
| FullDate.NumeralRoundTrip | frontend/src/components/ExpenseModal.jsx:16 | a fixed-width zero-padded numeral consists of digits and reads back as its number |
| FullDate.Parse | backend/routes/expenses.js:33 | an accepted date text is ten characters with `-` as the fifth and the eighth, and denotes a real day of a four-digit year |
| FullDate.FebruaryThirtiethRejected | backend/routes/expenses.js:33 | `2023-02-30` is rejected, not rolled over into March |
| FullDate.Format | frontend/src/components/ExpenseModal.jsx:16-46 | a day is written as ten characters with `-` as the fifth and the eighth |
| Decimal.ParseToText | frontend/src/contexts/ExpenseContext.jsx:80 | the decimal text of `page.toString()` reads back, as the server reads a count parameter, as the same number |
| Decimal.ParseNat | backend/controllers/expenseController.js:7 | the model reads a count parameter as a number exactly when its text is a non-empty run of digits, the form the client sends |
| Decimal.NoLeadingZero | frontend/src/contexts/ExpenseContext.jsx:80 | the decimal text of a number starts with `0` only for zero itself |
| Sorting.SortDesc | backend/controllers/expenseController.js:28 | sorting descending by a key yields a permutation of the input (same multiset) in which keys never increase |
| Sorting.InsertPermutes | backend/controllers/expenseController.js:28 | inserting one record into a sorted list adds exactly that record and removes none |
| Sorting.SortKeepsElements | backend/controllers/expenseController.js:28 | sorting neither adds nor drops a record |
| Sorting.SortKeepsSums | backend/controllers/expenseController.js:162 | sorting keeps the sum of any amount and of any count over the entries |
| ExpenseSchema.CreateErrors | backend/models/Expense.js:5-68 | the fields the schema rejects for a new document are exactly those with a missing required value, a broken bound or enumeration, or `recurringType` missing while `isRecurring` is true |
| ExpenseSchema.CreateAccepted | backend/models/Expense.js:5-62 | a body the schema accepts has owner, title, amount and category, each within its rule, every optional field present within its rule, and a recurrence kind whenever it recurs |
| ExpenseSchema.Create | backend/models/Expense.js:5-68 | saving a new document fails exactly when some field rule fails, with those fields; otherwise the record is valid, has the given id and owner, a trimmed title, the given day or today, and the defaults `Cash` and not recurring |
| ExpenseSchema.CreateOfValidRecord | backend/models/Expense.js:10-68 | a valid record written back as a body and saved again is the same record: trimming, defaults and date text lose nothing |
| ExpenseSchema.UpdateErrors | backend/models/Expense.js:10-62 | the update validators reject exactly the present fields that break their rule; absent fields are not checked |
| ExpenseSchema.UpdateAccepted | backend/models/Expense.js:10-62 | a body the update validators accept has every present field within its rule |
| ExpenseSchema.Update | backend/controllers/expenseController.js:99-102 | an update keeps the id and fails exactly when a present field breaks its rule; otherwise each field the body gives replaces the stored one (title, description and tags trimmed, the date read from its text, the amount as given) and each field it leaves out is kept |
| ExpenseSchema.UpdateWithEmptyBody | backend/controllers/expenseController.js:99-102 | an update with an empty body changes nothing |
| ExpenseSchema.UpdateWithOwnFields | backend/controllers/expenseController.js:99-102 | a valid record updated with its own fields written back as a body is left as it is |
| ExpenseSchema.UpdatePreservesValidity | backend/models/Expense.js:52-62 | a valid record updated with an accepted body is still valid, provided a record switched to recurring has a recurrence kind |
| ExpenseSchema.TrimAllIdempotent | backend/models/Expense.js:63-68 | every stored tag is trimmed |
| ExpenseRoutes.RequestErrors | backend/routes/expenses.js:16-34 | the request rules reject a body exactly on an empty or over-long trimmed title, an amount that is not a number of at least 0.01, a category outside the list, or a missing or malformed date |
| ExpenseRoutes.CategoryListsAgree | backend/routes/expenses.js:19-32 | the request rules' category list is the schema's enumeration |
| ExpenseRoutes.RequestRulesImplySchemaRules | backend/routes/expenses.js:16-34 | a body passing the request rules passes the schema's title, amount, category and date rules, on create and on update |
| ExpenseRoutes.SchemaRejectionIsRequestRejection | backend/routes/expenses.js:17-32 | whatever the schema rejects in title, amount or category, the request rules reject first |
| ExpenseRoutes.FirstMatchFrom | backend/routes/expenses.js:40-45 | the index found is a matching route and no earlier one matches; none is found only when no route matches |
| ExpenseRoutes.Resolve | backend/routes/expenses.js:13-45 | a request is served by the first registered route matching its verb and path, with the literal segment matched in any case because the router is not case-sensitive, and by none exactly when no route matches |
| ExpenseRoutes.StatsRouteShadowsId | backend/routes/expenses.js:41-42 | `GET /stats` also matches `/:id` but reaches the statistics handler, which is registered first |
| ExpenseRoutes.StatsRouteIgnoresCase | backend/routes/expenses.js:13-41 | `GET /STATS` and `GET /Stats` reach the statistics handler too |
| ExpenseRoutes.GetByIdRoute | backend/routes/expenses.js:13-42 | `GET` of any other single segment, that is one that is not `stats` in any case, reaches the by-id handler |
| ExpenseRoutes.ValidationOnlyOnWrites | backend/routes/expenses.js:43-44 | the request rules run exactly on create and update |
| ExpenseQuery.BuildFilter | backend/controllers/expenseController.js:10-25 | the filter always restricts to the caller; it has a category clause exactly when a category other than `all` is given, a date range exactly when both bounds are given, a search clause exactly when search text is given; it fails exactly when both bounds are given and one is not a date |
| ExpenseQuery.SearchMatches | backend/controllers/expenseController.js:23-25 | definition: the search text occurs, ignoring case, in the title or in the description when there is one |
| ExpenseQuery.Matches | backend/controllers/expenseController.js:10-25 | definition: a record satisfies the filter when it is the caller's and meets each clause the filter has |
| ExpenseQuery.Select | backend/controllers/expenseController.js:27 | the selected records are exactly the store's records that satisfy the filter |
| ExpenseQuery.SelectNarrower | backend/controllers/expenseController.js:32 | a filter admitting fewer records counts no more of them |
| ExpenseQuery.Window | backend/controllers/expenseController.js:29-30 | page `p` of size `n` holds at most `n` records, namely the ones ranked `(p-1)*n` onward, and is empty once the skip passes the end |
| ExpenseQuery.PageCount | backend/controllers/expenseController.js:36 | the page count is the least number of pages of `limit` records holding all matches; zero exactly when nothing matches |
| ExpenseQuery.ListExpenses | backend/controllers/expenseController.js:5-39 | the listing holds only the caller's records that satisfy every clause, at most `limit` of them, newest first; it reports the number of all matches and the page asked for (1 by default); it fails exactly when the filter fails |
| ExpenseQuery.PageOf | backend/controllers/expenseController.js:27-38 | a page holds only matching records of the store, at most `limit` of them, newest first, and reports the count of all matches and the page asked for |
| ExpenseQuery.WindowSorted | backend/controllers/expenseController.js:28-30 | a page cut from a list sorted newest first is itself sorted newest first |
| ExpenseQuery.ListingIsPageOfSortedMatches | backend/controllers/expenseController.js:27-38 | the page is exactly the slice of the date-sorted matches that skip and limit cut out, and the page count covers the matches |
| ExpenseQuery.EveryMatchHasAPage | backend/controllers/expenseController.js:29-36 | the match ranked `k` appears on page `k / limit + 1` at position `k % limit`, and that page is within the page count |
| ExpenseQuery.PagesBeyondCountAreEmpty | backend/controllers/expenseController.js:29-36 | a page past the page count is empty |
| ExpenseQuery.ListingNewestFirst | backend/controllers/expenseController.js:28 | an expense shown earlier in the page is on the same day as a later one or after it |
| ExpenseQuery.CountScopedToCaller | backend/controllers/expenseController.js:10 | no query parameter counts more records than the caller owns |
| ExpenseQuery.UnconstrainedQueryMatchesAllOwn | backend/controllers/expenseController.js:12-25 | with category `all` or none, at most one date bound and no search text, every record of the caller matches and no other record does |
| ExpenseQuery.OneBoundIgnored | backend/controllers/expenseController.js:16 | a start date without an end date, or the reverse, adds no date clause |
| ExpenseQuery.CoffeeSearch | backend/controllers/expenseController.js:23-25 | search ignores case and looks in the title or the description; a record whose title lacks the text and which has no description does not match |
| ExpenseQuery.TwentyFiveMatches | backend/controllers/expenseController.js:29-38 | twenty-five matches at ten per page: the first page shows ten, the count is 25, there are three pages |
| ExpenseStats.StatsPeriod | backend/controllers/expenseController.js:140-144 | with a month the window runs from its first to its last day; without one it is the whole year; a year from 0 to 99 means 1900 plus it |
| ExpenseStats.LeapDayInFebruaryWindow | backend/controllers/expenseController.js:144 | the February window ends on the 29th exactly in leap years, counting a two-digit year as 1900 plus it |
| ExpenseStats.TwoDigitYearWindow | backend/controllers/expenseController.js:140-144 | asking for year 50 gives the window of 1950 |
| ExpenseStats.WithinMembers | backend/controllers/expenseController.js:149-152 | the records in the statistics are exactly the caller's records dated within the window |
| ExpenseStats.Within | backend/controllers/expenseController.js:149-152 | the matched records are no more than the store holds, and each is the caller's and dated within the window |
| ExpenseStats.InMonth | backend/controllers/expenseController.js:176 | a month's share of the records is no more than all of them |
| ExpenseStats.InMonthMembers | backend/controllers/expenseController.js:176 | a month's share holds exactly the records whose date is in that month |
| ExpenseStats.SumAmounts | backend/controllers/expenseController.js:157 | definition: `$sum` of the amounts |
| ExpenseStats.PositiveSum | backend/controllers/expenseController.js:157 | with every amount positive, as the schema demands, the sum is positive exactly when there are records |
| ExpenseStats.GroupByCategory | backend/controllers/expenseController.js:154-160 | no category is grouped twice |
| ExpenseStats.GroupByCategoryLookup | backend/controllers/expenseController.js:154-160 | each category with records in the window has one group, whose total is the sum of those records' amounts and whose count is their number; a category without records has no group |
| ExpenseStats.GroupByCategorySums | backend/controllers/expenseController.js:157-158 | the group totals add up to the sum of all amounts and the group counts to the number of records |
| ExpenseStats.CategoryStats | backend/controllers/expenseController.js:147-164 | the category groups come largest total first, cover every category present, each counting exactly that category's records, and together account for every record and every amount |
| ExpenseStats.DistinctLookup | backend/controllers/expenseController.js:156 | in groups with distinct categories, looking a group's category up finds that group |
| ExpenseStats.MonthsFrom | backend/controllers/expenseController.js:174-183 | the month groups from a given month on are in increasing month order, each with the total and count of that month's records |
| ExpenseStats.MonthsFromCovers | backend/controllers/expenseController.js:176 | every month from a given one on that has a record gets a group, and that group carries the month's own total and count |
| ExpenseStats.MonthlyStats | backend/controllers/expenseController.js:167-184 | the month groups are in increasing month order, each with the total and count of that month's records |
| ExpenseStats.MonthlyStatsCovers | backend/controllers/expenseController.js:176 | every month that has a record gets a group, and that group carries the month's own total and count |
| ExpenseStats.MonthsFromTail | backend/controllers/expenseController.js:176 | records all before July give no group from July on |
| ExpenseStats.TotalOf | backend/controllers/expenseController.js:187-206 | the overall total is the sum of the amounts and the count is the number of records; with none it is zero and zero |
| ExpenseStats.GetExpenseStats | backend/controllers/expenseController.js:138-208 | the answer reports its window; the category groups and the overall total and count come from the caller's records in that window, the groups largest first and adding up to the total and count; the month groups, in increasing month order, come from the caller's records in the whole year even when a month is asked; with no records in the window the totals are zero |
| ExpenseStats.MonthEntryCoversPeriod | backend/controllers/expenseController.js:143-184 | with a month asked and records in its window, the month groups have an entry for that month counting at least those records |
| ExpenseStats.MonthWindowInsideYear | backend/controllers/expenseController.js:143-144 | a day inside a month's window is in that month and inside the year's window |
| ExpenseStats.MonthWithinYear | backend/controllers/expenseController.js:151 | a month window counts no more records than that month's share of the year window |
| ExpenseStats.MonthWindowIsYearMonth | backend/controllers/expenseController.js:151 | over real days, the records of a month window are exactly those of that month within the year window |
| ExpenseStats.MarchScenario | backend/controllers/expenseController.js:138-208 | two March records and one June record with month 3 asked: one category group of 15 over 2 records, total 15 over 2, and month groups for March and June from the year view |
| ExpenseStats.MarchWindow | backend/controllers/expenseController.js:143-151 | March's window holds the two March records; the year window holds all three |
| ExpenseStats.MarchYearView | backend/controllers/expenseController.js:167-184 | the year view groups March as 15 over 2 and June as 100 over 1 |
| ExpenseStats.NoRecordsInMonth | backend/controllers/expenseController.js:176 | a month no record falls in has no records |
| ExpenseCrud.Find | backend/controllers/expenseController.js:49-52 | the position found holds a record with that id owned by the caller, and none is found exactly when the caller owns no such record |
| ExpenseCrud.GetById | backend/controllers/expenseController.js:47-58 | the answer is a record of the store with that id owned by the caller; not found exactly when the caller owns none |
| ExpenseCrud.GetByIdIsTheRecord | backend/controllers/expenseController.js:49-58 | with unique ids, asking for one of one's own records returns exactly it |
| ExpenseCrud.OtherOwnersRecordIsNotFound | backend/controllers/expenseController.js:49-55 | another owner's record is not found, whatever its id |
| ExpenseCrud.CreateExpense | backend/controllers/expenseController.js:66-84 | a bad request exactly when the request rules reject the body; success exactly when the request rules and the schema both accept the body with the caller as owner; the record is then what the schema makes of that body, valid, owned by the caller, appended to the store |
| ExpenseCrud.CreateIgnoresBodyUser | backend/controllers/expenseController.js:73-76 | whatever owner the body names, the result is the same: the caller's |
| ExpenseCrud.CreateFailsOnlyOnUncheckedFields | backend/controllers/expenseController.js:68-79 | a body passing the request rules can fail on save only on description, payment method or recurrence kind |
| ExpenseCrud.CreateKeepsIdsUnique | backend/controllers/expenseController.js:78-79 | creating with a fresh id keeps ids unique |
| ExpenseCrud.UpdateAt | backend/controllers/expenseController.js:92-111 | a bad request exactly when the request rules reject the body; a schema rejection, naming exactly the fields the update validators reject, when only those fail; not found exactly when both rule sets pass and the caller owns no such record; success exactly when both rule sets pass and the caller owns such a record, and then only that record changes, into what the schema's update makes of it |
| ExpenseCrud.UpdateExpenseAsWritten | backend/controllers/expenseController.js:92-111 | the handler as written: a bad request exactly when the request rules reject the body; success exactly when both rule sets pass and the caller owns such a record; a schema rejection names exactly the failing fields; on success the store keeps its size |
| ExpenseCrud.ToMalloryPasses | backend/routes/expenses.js:16-34 | a body repeating a valid record's fields but naming another user passes both the request rules and the update validators, which do not look at `user` |
| ExpenseCrud.UpdateAsWrittenReassignsOwner | backend/controllers/expenseController.js:99 | a body naming another user moves the record to that user: the owner no longer finds it, the named user does |
| ExpenseCrud.UpdateExpense | backend/controllers/expenseController.js:92-111 | a bad request exactly when the request rules reject the body; a schema rejection names exactly the fields the update validators reject; not found exactly when both rule sets pass and the caller owns no such record; success exactly when both pass and the caller owns such a record, and then exactly one of the caller's records with that id changes, into what the schema's update makes of it with the body's fields, and it stays the caller's |
| ExpenseCrud.UpdateKeepsOwners | backend/controllers/expenseController.js:99 | the corrected update changes no record's owner |
| ExpenseCrud.DeleteExpense | backend/controllers/expenseController.js:119-130 | not found exactly when the caller owns no record with that id; otherwise such a record is removed |
| ExpenseCrud.DeleteRemovesExactlyOne | backend/controllers/expenseController.js:121-124 | a delete removes exactly one record, one of the caller's with that id |
| ExpenseCrud.DeleteLeavesNoSuchId | backend/controllers/expenseController.js:121-124 | with unique ids, no record with the deleted id is left |
| ExpenseCrud.DeleteKeepsOthers | backend/controllers/expenseController.js:121-124 | every other owner's record is still there |
| ExpenseContext.ReplaceById | frontend/src/contexts/ExpenseContext.jsx:46 | the list keeps its length and ids, with every element carrying the updated record's id replaced by it |
| ExpenseContext.RemoveById | frontend/src/contexts/ExpenseContext.jsx:49-52 | a delete never makes the list longer, and no element left carries the deleted id |
| ExpenseContext.RemoveByIdMembers | frontend/src/contexts/ExpenseContext.jsx:51 | after a delete, the list holds exactly the elements that do not carry the id |
| ExpenseContext.RemoveByIdConcat | frontend/src/contexts/ExpenseContext.jsx:51 | removal works piece by piece, so the survivors keep their order |
| ExpenseContext.RemoveAbsentId | frontend/src/contexts/ExpenseContext.jsx:51 | deleting an id the list does not hold changes nothing |
| ExpenseContext.ReplaceThenRemove | frontend/src/contexts/ExpenseContext.jsx:43-52 | updating a record and then deleting it is the same as deleting it |
| ExpenseContext.ReplaceIdempotent | frontend/src/contexts/ExpenseContext.jsx:46 | applying the same update twice is applying it once |
| ExpenseContext.Reduce | frontend/src/contexts/ExpenseContext.jsx:24-70 | each action sets only the part of the state it names; new filters override the old ones key by key and keep the others; a reset restores the initial filters; an unknown action changes nothing |
| ExpenseContext.AddThenDelete | frontend/src/contexts/ExpenseContext.jsx:38-52 | adding a record with a fresh id and deleting it gives the state back |
| ExpenseContext.ResetUndoesFilters | frontend/src/contexts/ExpenseContext.jsx:55-66 | from the initial filters, setting filters and then resetting gives the state back |
| ExpenseContext.SetFiltersIdempotent | frontend/src/contexts/ExpenseContext.jsx:55-56 | setting the same filters twice is setting them once |
| ExpenseContext.FetchParams | frontend/src/contexts/ExpenseContext.jsx:79-83 | the parameters are `page`, `limit` and the filters; a filter with the same key overrides, and otherwise the page and a limit of 10 are sent |
| ExpenseContext.QueryOf | backend/controllers/expenseController.js:7 | the server's reading of the parameters: each one absent or its text, with page and limit as positive numbers |
| ExpenseContext.FetchParamsReadBack | frontend/src/contexts/ExpenseContext.jsx:79-85 | the server reads back the page asked for and a limit of 10 unless the filters carry their own |
| ExpenseContext.FilterLimitOverrides | frontend/src/contexts/ExpenseContext.jsx:82 | a `limit` among the filters wins over the default of 10 |
| ExpenseContext.InitialQuery | frontend/src/contexts/ExpenseContext.jsx:79-83 | the first fetch with the initial filters is read by the server as page 1, limit 10, category `all` and empty date and search text |
| ExpenseContext.InitialFiltersListEverything | frontend/src/contexts/ExpenseContext.jsx:11-16 | the initial filters add no clause: every record of the caller matches, and only those |
| ExpenseContext.StatsParams | frontend/src/contexts/ExpenseContext.jsx:136-138 | the year and the month are sent, year first, each only when given and non-zero |
| ExpenseContext.StatsParamsReadBack | frontend/src/contexts/ExpenseContext.jsx:136-140 | the server reads exactly the year and month that were given and non-zero, with their values |
| AuthContext.InitialState | frontend/src/contexts/AuthContext.jsx:7-12 | the client starts loading, with nobody signed in and the stored token |
| AuthContext.Reduce | frontend/src/contexts/AuthContext.jsx:14-56 | sign-in and registration store the token and authenticate; sign-out and an auth error drop user and token everywhere; a loaded profile authenticates; profile changes override key by key; an unknown action changes nothing |
| AuthContext.SignInAndRegisterAgree | frontend/src/contexts/AuthContext.jsx:16-25 | signing in and registering lead to the same state |
| AuthContext.LogoutAndAuthErrorAgree | frontend/src/contexts/AuthContext.jsx:26-35 | signing out and an auth error lead to the same state |
| AuthContext.InitialCoherent | frontend/src/contexts/AuthContext.jsx:7-12 | the client starts with the token in memory equal to the stored one |
| AuthContext.ReduceKeepsCoherent | frontend/src/contexts/AuthContext.jsx:14-56 | every action keeps the in-memory token equal to the stored one and an authenticated client with a profile |
| AuthContext.RunKeepsCoherent | frontend/src/contexts/AuthContext.jsx:14-56 | any sequence of actions from the start keeps that agreement |
| AuthContext.RunFromCoherent | frontend/src/contexts/AuthContext.jsx:14-56 | any sequence of actions from an agreeing state keeps it |
| AuthContext.StartUpAction | frontend/src/contexts/AuthContext.jsx:62-87 | with a token the profile is fetched and loaded, or the failure signs out; without a token loading just ends |
| AuthContext.StartUpWithoutToken | frontend/src/contexts/AuthContext.jsx:62-67 | without a stored token the client ends up signed out and not loading |
| AuthContext.StartUpWithToken | frontend/src/contexts/AuthContext.jsx:62-87 | with a stored token the client is signed in as the fetched profile, or signed out with the token removed if the fetch fails |
| AuthContext.StartUp | frontend/src/contexts/AuthContext.jsx:62-87 | start-up always ends loading, keeps the in-memory token equal to the stored one, and authenticates exactly when a token was stored and the profile came back |
| FormErrors.Dismiss | frontend/src/pages/Login.jsx:34-36 | editing a field clears its showing message and keeps the same fields |
| FormErrors.DismissOnlyThatField | frontend/src/pages/Register.jsx:39-41 | editing a field leaves every other field's message alone |
| FormErrors.DismissIdempotent | frontend/src/components/ExpenseModal.jsx:62-64 | editing the same field twice clears no more than editing it once |
| FormErrors.DismissShowing | frontend/src/components/ExpenseModal.jsx:62-64 | the messages showing after an edit are those showing before, less the edited field's |
| EmailPattern.Search | frontend/src/pages/Register.jsx:69 | the one-pass scan answers true exactly when some part of the text is a non-space run, `@`, a non-space run, `.`, a non-space run |
| EmailPattern.ShapeHasShortest | frontend/src/pages/Login.jsx:44 | every match of the pattern contains a shortest match around the same `@` and `.` |
| EmailPattern.ShortestIsShape | frontend/src/pages/Login.jsx:44 | a shortest match is a match of the pattern |
| EmailPattern.EmailError | frontend/src/pages/Register.jsx:67-71 | no message exactly when the e-mail is non-empty and has the pattern; "Email is required" for an empty one, otherwise "Email is invalid" |
| EmailPattern.Examples | frontend/src/pages/Login.jsx:44 | `a@b.c` passes, `a@b` and `@b.c` do not |
| RegisterPage.Strength | frontend/src/pages/Register.jsx:44-52 | the strength score is at most 5 |
| RegisterPage.StrengthMonotone | frontend/src/pages/Register.jsx:44-52 | typing more never lowers the score |
| RegisterPage.NonEmptyScores | frontend/src/pages/Register.jsx:47-50 | any non-empty password scores at least 1 |
| RegisterPage.FullStrength | frontend/src/pages/Register.jsx:44-52 | a score of 5 exactly when the password has six characters and an upper-case letter, a lower-case letter, a digit and a symbol |
| RegisterPage.Label | frontend/src/pages/Register.jsx:56 | the label shown is always one of the five labels |
| RegisterPage.VeryWeakLabel | frontend/src/pages/Register.jsx:235 | "Very Weak" is shown exactly for scores 0 and 1 |
| RegisterPage.LitBarsCount | frontend/src/pages/Register.jsx:225-232 | exactly the first `score` of the five bars are lit |
| RegisterPage.Validate | frontend/src/pages/Register.jsx:58-87 | a field gets a message exactly when: the name is shorter than two characters, the e-mail is missing or lacks the pattern, the password is shorter than six, or the confirmation is missing or differs |
| RegisterPage.Messages | frontend/src/pages/Register.jsx:58-84 | each field's required message takes precedence over its second check |
| RegisterPage.ValidIff | frontend/src/pages/Register.jsx:58-87 | the form is valid exactly when all four checks pass |
| RegisterPage.HandleChange | frontend/src/pages/Register.jsx:36-42 | typing sets only that field and dismisses its message |
| RegisterPage.EditKeepsOtherMessages | frontend/src/pages/Register.jsx:36-42 | typing in one field keeps every other field's message |
| RegisterPage.Submit | frontend/src/pages/Register.jsx:89-93 | submitting replaces the messages with a fresh validation and sends name, e-mail and password exactly when it is clean |
| RegisterPage.SendableHasMeter | frontend/src/pages/Register.jsx:218-238 | a form that is sent shows the strength meter with a score of at least 1 |
| LoginPage.Validate | frontend/src/pages/Login.jsx:39-54 | the e-mail gets the registration form's message; the password only "Password is required" when empty |
| LoginPage.ValidIff | frontend/src/pages/Login.jsx:39-54 | the form is valid exactly when the e-mail has the pattern and a password is typed |
| LoginPage.RegisteredCredentialsPass | frontend/src/pages/Login.jsx:39-54 | credentials the registration form accepts pass the sign-in form's checks |
| LoginPage.HandleChange | frontend/src/pages/Login.jsx:31-37 | typing sets only that field and dismisses its message |
| LoginPage.EditKeepsOtherMessage | frontend/src/pages/Login.jsx:31-37 | typing in one field keeps the other's message |
| LoginPage.Submit | frontend/src/pages/Login.jsx:56-60 | submitting replaces the messages with a fresh validation and sends the credentials exactly when it is clean |
| LoginPage.EmptyFormNotSent | frontend/src/pages/Login.jsx:20-23 | an untouched form sends nothing and shows both required messages |
| ExpenseModal.NewForm | frontend/src/components/ExpenseModal.jsx:11-21 | a new form has an empty title, amount and description, category `Food & Dining`, payment `Cash`, not recurring with kind `monthly`, no tags, and a date that reads back as today; its choices are all valid ones |
| ExpenseModal.NewExpenseIsCreated | frontend/src/components/ExpenseModal.jsx:11-103 | a new form given a title and an amount the server accepts is sent as a create whose body passes the request rules, and the server stores it for the caller |
| ExpenseModal.FormOf | frontend/src/components/ExpenseModal.jsx:39-53 | editing fills the form from the record: the date reads back as the record's day, a missing description is empty, a missing recurrence kind is monthly |
| ExpenseModal.HandleChange | frontend/src/components/ExpenseModal.jsx:55-65 | the checkbox stores its checked state and a text input its value; that input's message is dismissed |
| ExpenseModal.TypingChangesOneField | frontend/src/components/ExpenseModal.jsx:57-60 | typing in one field leaves every other field as it was |
| ExpenseModal.Validate | frontend/src/components/ExpenseModal.jsx:67-84 | title, amount and date get their message exactly when the title is blank, the amount is empty or reads as a number not above 0, or the date is empty |
| ExpenseModal.ValidIff | frontend/src/components/ExpenseModal.jsx:67-84 | the form is valid exactly when all three checks pass |
| ExpenseModal.Submit | frontend/src/components/ExpenseModal.jsx:86-103 | an invalid form sends nothing; a valid one sends the form with its amount read as a number, as an update of the edited expense or as a create |
| ExpenseModal.BodyOfPayload | frontend/src/components/ExpenseModal.jsx:93-96 | the dialog sends every field of the form, with the amount as read, and never an owner |
| ExpenseModal.ResaveUnchanged | frontend/src/components/ExpenseModal.jsx:39-103 | opening a stored expense and saving it unchanged sends an update of it whose body passes the server's request rules, with the same day |
| ExpenseModal.NotANumberReachesServer | frontend/src/components/ExpenseModal.jsx:74 | the dialog's own check lets through a non-empty amount text that reads as no number, and sends it; the server's request rules reject it |

## Left out

- Mongo's `$regex` search: the search text is matched as a literal substring. Regular-expression metacharacters in the text are not interpreted.
- Case-insensitive matching folds ASCII letters only.
- Time zones and times of day: records and windows are whole days. `new Date(year, 11, 31)` is midnight, so a record later on 31 December misses the year window. `new Date().toISOString()` in the dialog is a UTC day. Neither is modelled.
- `ExpenseStats.GetExpenseStats`: `month` must lie in 1..12. JavaScript rolls other months into neighbouring years, and the model does not.
- `ExpenseQuery.ListingIsPageOfSortedMatches`: the model sorts with a stable insertion sort, so records dated the same day keep their store order. The source fetches each page with its own `sort`, `skip` and `limit` query (backend/controllers/expenseController.js:27-30), and the store does not fix the order of records with equal dates. Dates are whole days, so such ties are common, and separate page queries may show a same-day record twice or not at all. `ExpenseQuery.EveryMatchHasAPage` therefore holds only under the model's fixed order, not across the source's separate queries.
- `ExpenseQuery.ListExpenses`: `page` and `limit` must be positive numbers. The source passes zero, negative or non-numeric text on to the store. It also echoes `currentPage` back as the query text, not as a number.
- Other date texts `new Date(…)` and `isISO8601` accept (times, offsets, week dates): the model accepts only `YYYY-MM-DD`.
- `FullDate.Parse`: it rejects a `YYYY-MM-DD` text whose day is past the end of its month, such as `2023-02-30`. The source accepts it: `isISO8601` without `strict` checks only that the day is 01 to 31, and `new Date` rolls it over to 2 March. Two things differ as a result. On create and update, `ExpenseRoutes.RequestErrors` rejects the date, while the source saves the record dated 2 March. In the listing, `ExpenseQuery.BuildFilter` answers `DateCastFailed` for such a bound, while the source filters from 2 March.
- The Mongoose `required` validator of `recurringType` on updates: the model runs update validators on present fields only. A record switched to recurring without a recurrence kind therefore needs the extra precondition of `ExpenseSchema.UpdatePreservesValidity`.
- The two index declarations (backend/models/Expense.js:76-77): performance only.
- `timestamps` (createdAt and updatedAt): not stored in the model.
- Floating point: amounts are exact reals. `Number.parseFloat` and `toString` are parameters of the dialog.
- Lengths are counted in characters, not UTF-16 code units.
- `ExpenseRoutes.RequestRulesImplySchemaRules`: in the source the request rules and the schema count a title's length differently. `isLength` does not count U+FE0E and U+FE0F and counts a surrogate pair once. Mongoose's `maxlength` counts UTF-16 code units. So a title of `a` followed by 100 copies of U+FE0F passes the request rules, and so does a title of 51 emoji from outside the Basic Multilingual Plane. The schema then rejects both and the source answers 500. The model counts one character per element on both sides, so this gap does not appear in it.
- `ExpenseCrud.Find`: an `:id` that is not a well-formed object id makes the store throw a cast error, and `GET`, `PUT` and `DELETE` by id answer 500. The model compares ids as plain values, so `ExpenseCrud.GetById`, `ExpenseCrud.UpdateAt`, `ExpenseCrud.UpdateExpense` and `ExpenseCrud.DeleteExpense` answer `NotFound` instead.
- `Decimal.ParseNat`: the server coerces `page` and `limit` with `* 1` and arithmetic, so it also reads texts such as `2.0`, ` 3` and `1e1` as numbers. The model reads only plain runs of digits, which is what the client sends.
- `ExpenseModal.NotANumberReachesServer`: the amount field is an `<input type="number">` (frontend/src/components/ExpenseModal.jsx:183). A browser gives such a field the empty value when the typed text is not a number, and the dialog then reports the amount as missing. The lemma is about the dialog's own check with any text, not about what a browser lets through.
- Asynchronous requests, toasts, navigation, animations and markup: the forms are modelled as state and the submits by what they send.
- The effect that sets the `Authorization` header (frontend/src/contexts/AuthContext.jsx:71-77): it touches the HTTP client only.
- `googleLogin`, and the sign-in and registration calls inside `AuthContext`. The Google buttons in `Login.jsx` and `Register.jsx` are not modelled either.
- Server errors: a body the request rules pass but the schema rejects gives 500 in the source. It is `SchemaRejected` here. A date bound that is not a date is `DateCastFailed`. Any other failure of the store is not modelled.
- Object-spread key order in the listing parameters: they are a map, because the server reads them by name.
- `ExpenseCrud.UpdateExpenseAsWritten`: its contract states when each outcome happens and that the store keeps its size, but not which record changes or how. The owner reassignment it allows is shown by `ExpenseCrud.UpdateAsWrittenReassignsOwner`, and the full behaviour is stated on `ExpenseCrud.UpdateAt`.
- Authentication middleware, the user and auth controllers, the server set-up and the database connection are not part of this model: the caller's identity is a parameter.

## Findings

| source | as written | input that shows it | evidently intended | confidence | as-written member | corrected member |
|---|---|---|---|---|---|---|
| backend/controllers/expenseController.js:99 | the update passes the request body to the store unfiltered, so a `user` field in the body replaces the record's owner | alice updates her record `e1` with a valid body carrying `user: "mallory"`: afterwards alice's `GET /e1` is not found and mallory's finds it | the owner stays the caller, as create forces at lines 73-76 | not executed | ExpenseCrud.UpdateAsWrittenReassignsOwner | ExpenseCrud.UpdateKeepsOwners |
