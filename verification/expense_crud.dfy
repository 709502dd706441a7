/** Reading, creating, updating and deleting one expense by id on behalf of
    a signed-in user. Every lookup matches on the id AND the caller as owner,
    so a record of another user is never read, changed or removed: it is
    simply "not found". */
module ExpenseCrud {
  import opened Wrappers
  import opened Calendar
  import opened ExpenseSchema
  import ExpenseRoutes

  type Store = seq<Expense>

  /** Why a request by id did not go through: the request rules failed (the
      400 answer), the schema's validators failed on save (the store throws
      and the handler answers with a server error), or no record of the
      caller has that id (404). */
  datatype CrudError = BadRequest(fields: set<Field>) | SchemaRejected(fields: set<Field>) | NotFound

  predicate Owns(e: Expense, caller: UserId, id: ExpenseId) {
    e.id == id && e.owner == caller
  }

  /** The store's ids identify records. */
  predicate UniqueIds(store: Store) {
    forall i, j :: 0 <= i < j < |store| ==> store[i].id != store[j].id
  }

  /** Position of the first record at or after `from` with this id and owner. */
  function FindFrom(store: Store, caller: UserId, id: ExpenseId, from: nat): (r: Option<nat>)
    requires from <= |store|
    ensures r.Some? ==> from <= r.value < |store| && Owns(store[r.value], caller, id)
    ensures r.Some? ==> forall j :: from <= j < r.value ==> !Owns(store[j], caller, id)
    ensures r.None? <==> forall j :: from <= j < |store| ==> !Owns(store[j], caller, id)
    decreases |store| - from
  {
    if from == |store| then None
    else if Owns(store[from], caller, id) then Some(from)
    else FindFrom(store, caller, id, from + 1)
  }

  /** `findOne({_id: id, user: caller})`. */
  function Find(store: Store, caller: UserId, id: ExpenseId): (r: Option<nat>)
    ensures r.Some? ==> r.value < |store| && Owns(store[r.value], caller, id)
    ensures r.None? <==> forall e :: e in store ==> !Owns(e, caller, id)
  {
    FindFrom(store, caller, id, 0)
  }

  /** `GET /:id`: the caller's record with that id, or not found. */
  function GetById(store: Store, caller: UserId, id: ExpenseId): (r: Result<Expense, CrudError>)
    ensures r.Ok? ==> r.value in store && r.value.id == id && r.value.owner == caller
    ensures r.Err? ==> r.error == NotFound
    ensures r.Err? <==> forall e :: e in store ==> !Owns(e, caller, id)
  {
    var i := Find(store, caller, id);
    if i.Some? then Ok(store[i.value]) else Err(NotFound)
  }

  /** With unique ids, the record found is the only one with that id. */
  lemma {:induction false} GetByIdIsTheRecord(store: Store, caller: UserId, e: Expense)
    requires UniqueIds(store) && e in store && e.owner == caller
    ensures GetById(store, caller, e.id) == Ok(e)
  {
    var r := GetById(store, caller, e.id);
    var i :| 0 <= i < |store| && store[i] == e;
    var k := Find(store, caller, e.id).value;
    assert k == i;
  }

  /** A record of another owner is never returned, whatever its id. */
  lemma OtherOwnersRecordIsNotFound(store: Store, caller: UserId, e: Expense)
    requires UniqueIds(store) && e in store && e.owner != caller
    ensures GetById(store, caller, e.id) == Err(NotFound)
  {
  }

  /** `POST /`: the request rules, then a document built from the body with
      its owner replaced by the caller, validated by the schema and appended.
      `id` is the fresh id the store assigns and `now` the current day. */
  function CreateExpense(store: Store, caller: UserId, b: Body, id: ExpenseId, now: Date)
    : (r: Result<(Store, Expense), CrudError>)
    requires IsValid(now)
    ensures r.Err? && r.error.BadRequest? <==> ExpenseRoutes.RequestErrors(b) != {}
    ensures r.Err? ==> r.error != NotFound
    ensures r.Ok? ==> r.value.0 == store + [r.value.1]
    ensures r.Ok? ==> r.value.1.owner == caller && r.value.1.id == id && IsValidExpense(r.value.1)
    ensures r.Ok? <==> ExpenseRoutes.RequestErrors(b) == {} && CreateErrors(b.(user := Some(caller))) == {}
    ensures r.Ok? ==> Create(b.(user := Some(caller)), id, now) == Ok(r.value.1)
  {
    var requestErrors := ExpenseRoutes.RequestErrors(b);
    if requestErrors != {} then Err(BadRequest(requestErrors))
    else
      match Create(b.(user := Some(caller)), id, now)
      case Err(fields) => Err(SchemaRejected(fields))
      case Ok(e) => Ok((store + [e], e))
  }

  /** Whatever owner the body names, the record is created for the caller. */
  lemma CreateIgnoresBodyUser(store: Store, caller: UserId, b: Body, u: Option<UserId>, id: ExpenseId, now: Date)
    requires IsValid(now)
    ensures CreateExpense(store, caller, b.(user := u), id, now) == CreateExpense(store, caller, b, id, now)
  {
    assert b.(user := u).(user := Some(caller)) == b.(user := Some(caller));
    assert ExpenseRoutes.RequestErrors(b.(user := u)) == ExpenseRoutes.RequestErrors(b);
  }

  /** A body that passes the request rules can fail on save only on the
      fields the request rules do not check. */
  lemma CreateFailsOnlyOnUncheckedFields(store: Store, caller: UserId, b: Body, id: ExpenseId, now: Date)
    requires IsValid(now)
    requires CreateExpense(store, caller, b, id, now).Err?
    requires ExpenseRoutes.RequestErrors(b) == {}
    ensures CreateExpense(store, caller, b, id, now).error.SchemaRejected?
    ensures CreateExpense(store, caller, b, id, now).error.fields <= {Description, PaymentMethod, RecurringType}
  {
    var c := b.(user := Some(caller));
    assert ExpenseRoutes.RequestErrors(c) == ExpenseRoutes.RequestErrors(b);
    ExpenseRoutes.RequestRulesImplySchemaRules(c);
    assert !CreateRejects(c, Title) && !CreateRejects(c, Amount);
    assert !CreateRejects(c, CategoryField) && !CreateRejects(c, DateField);
  }

  /** Creating with a fresh id keeps ids unique. */
  lemma CreateKeepsIdsUnique(store: Store, caller: UserId, b: Body, id: ExpenseId, now: Date)
    requires IsValid(now) && UniqueIds(store)
    requires forall e :: e in store ==> e.id != id
    requires CreateExpense(store, caller, b, id, now).Ok?
    ensures UniqueIds(CreateExpense(store, caller, b, id, now).value.0)
  {
    var s := CreateExpense(store, caller, b, id, now).value.0;
    forall i, j | 0 <= i < j < |s| ensures s[i].id != s[j].id {
      if j == |store| {
        assert s[i] == store[i];
      }
    }
  }

  /** `PUT /:id` AS WRITTEN: the request rules, the update validators on the
      fields the body sets, then the caller's record with that id is
      overwritten with the body as it came in, `user` included. */
  function UpdateExpenseAsWritten(store: Store, caller: UserId, id: ExpenseId, b: Body)
    : (r: Result<Store, CrudError>)
    ensures r.Err? && r.error.BadRequest? <==> ExpenseRoutes.RequestErrors(b) != {}
    ensures r.Ok? ==> |r.value| == |store|
    ensures r.Ok? <==> ExpenseRoutes.RequestErrors(b) == {} && UpdateErrors(b) == {}
                       && exists e :: e in store && Owns(e, caller, id)
    ensures r.Err? && r.error.SchemaRejected? ==>
              ExpenseRoutes.RequestErrors(b) == {} && r.error.fields == UpdateErrors(b) && r.error.fields != {}
  {
    UpdateAt(store, caller, id, b)
  }

  /** The update of the caller's record with the given body, after the
      request rules and the update validators. */
  function UpdateAt(store: Store, caller: UserId, id: ExpenseId, b: Body): (r: Result<Store, CrudError>)
    ensures r.Err? && r.error.BadRequest? <==> ExpenseRoutes.RequestErrors(b) != {}
    ensures r.Ok? ==> |r.value| == |store|
    ensures r.Ok? ==> exists i :: 0 <= i < |store| && Owns(store[i], caller, id)
                                   && Update(store[i], b) == Ok(r.value[i])
                                   && forall j :: 0 <= j < |store| && j != i ==> r.value[j] == store[j]
    ensures r.Err? && r.error == NotFound <==>
              ExpenseRoutes.RequestErrors(b) == {} && UpdateErrors(b) == {}
              && forall e :: e in store ==> !Owns(e, caller, id)
    ensures r.Ok? <==> ExpenseRoutes.RequestErrors(b) == {} && UpdateErrors(b) == {}
                       && exists e :: e in store && Owns(e, caller, id)
    ensures r.Err? && r.error.SchemaRejected? ==>
              ExpenseRoutes.RequestErrors(b) == {} && r.error.fields == UpdateErrors(b) && r.error.fields != {}
  {
    var requestErrors := ExpenseRoutes.RequestErrors(b);
    if requestErrors != {} then Err(BadRequest(requestErrors))
    else if UpdateErrors(b) != {} then Err(SchemaRejected(UpdateErrors(b)))
    else
      match Find(store, caller, id)
      case None => Err(NotFound)
      case Some(i) =>
        var s := store[i := Update(store[i], b).value];
        assert Update(store[i], b) == Ok(s[i]);
        Ok(s)
  }

  /** Alice's lunch, and an update body that repeats its fields but names
      mallory as the user. */
  const AliceLunch := Expense("e1", "alice", "Lunch", 12.0, "Food & Dining", None, Date(2024, 3, 5),
                              "Cash", false, None, [])
  const ToMallory := Body(Some("mallory"), Some("Lunch"), Some(Num(12.0)), Some("Food & Dining"), None,
                          Some(FullDate.Format(Date(2024, 3, 5))), None, None, None, None)

  /** That body passes the request rules and the update validators. */
  lemma ToMalloryPasses()
    ensures ExpenseRoutes.RequestErrors(ToMallory) == {}
    ensures UpdateErrors(ToMallory) == {}
  {
    Text.TrimIdempotent("Lunch");
    FullDate.ParseFormat(Date(2024, 3, 5));
    assert !ExpenseRoutes.RequestRejects(ToMallory, Title);
    assert !ExpenseRoutes.RequestRejects(ToMallory, DateField);
    assert !UpdateRejects(ToMallory, Title);
  }

  /** The flaw of the handler as written: a body naming another user moves
      the record to that user, after which its rightful owner can no longer
      find it. */
  lemma UpdateAsWrittenReassignsOwner()
    ensures var r := UpdateExpenseAsWritten([AliceLunch], "alice", "e1", ToMallory);
            && r.Ok?
            && r.value[0].owner == "mallory"
            && GetById(r.value, "alice", "e1") == Err(NotFound)
            && GetById(r.value, "mallory", "e1").Ok?
  {
    ToMalloryPasses();
    var r := UpdateExpenseAsWritten([AliceLunch], "alice", "e1", ToMallory);
    assert r.Ok?;
    assert r.value[0].owner == "mallory";
  }

  /** `PUT /:id` as intended: as above, except that the body cannot name the
      owner, so the record stays with the caller. */
  function UpdateExpense(store: Store, caller: UserId, id: ExpenseId, b: Body): (r: Result<Store, CrudError>)
    ensures r.Err? && r.error.BadRequest? <==> ExpenseRoutes.RequestErrors(b) != {}
    ensures r.Ok? ==> |r.value| == |store|
    ensures r.Ok? ==> exists i :: 0 <= i < |store| && Owns(store[i], caller, id) && Owns(r.value[i], caller, id)
                                   && Update(store[i], b.(user := None)) == Ok(r.value[i])
                                   && forall j :: 0 <= j < |store| && j != i ==> r.value[j] == store[j]
    ensures r.Err? && r.error == NotFound <==>
              ExpenseRoutes.RequestErrors(b) == {} && UpdateErrors(b) == {}
              && forall e :: e in store ==> !Owns(e, caller, id)
    ensures r.Ok? <==> ExpenseRoutes.RequestErrors(b) == {} && UpdateErrors(b) == {}
                       && exists e :: e in store && Owns(e, caller, id)
    ensures r.Err? && r.error.SchemaRejected? ==>
              ExpenseRoutes.RequestErrors(b) == {} && r.error.fields == UpdateErrors(b) && r.error.fields != {}
  {
    var c := b.(user := None);
    assert ExpenseRoutes.RequestErrors(c) == ExpenseRoutes.RequestErrors(b);
    assert UpdateErrors(c) == UpdateErrors(b);
    UpdateAt(store, caller, id, c)
  }

  /** The intended update never changes who owns any record. */
  lemma UpdateKeepsOwners(store: Store, caller: UserId, id: ExpenseId, b: Body)
    ensures var r := UpdateExpense(store, caller, id, b);
            r.Ok? ==> forall j :: 0 <= j < |store| ==> r.value[j].owner == store[j].owner
  {
  }

  /** `DELETE /:id`: the caller's record with that id is removed and nothing
      else changes. */
  function DeleteExpense(store: Store, caller: UserId, id: ExpenseId): (r: Result<Store, CrudError>)
    ensures r.Err? ==> r.error == NotFound
    ensures r.Err? <==> forall e :: e in store ==> !Owns(e, caller, id)
    ensures r.Ok? ==> exists i :: 0 <= i < |store| && Owns(store[i], caller, id)
                                   && r.value == store[..i] + store[i + 1..]
  {
    match Find(store, caller, id)
    case None => Err(NotFound)
    case Some(i) => Ok(store[..i] + store[i + 1..])
  }

  /** Deleting removes exactly one record, one of the caller's with that id. */
  lemma {:induction false} DeleteRemovesExactlyOne(store: Store, caller: UserId, id: ExpenseId)
    requires DeleteExpense(store, caller, id).Ok?
    ensures var s := DeleteExpense(store, caller, id).value;
            && |s| == |store| - 1
            && exists e :: e in store && Owns(e, caller, id) && multiset(s) + multiset{e} == multiset(store)
  {
    var s := DeleteExpense(store, caller, id).value;
    var i :| 0 <= i < |store| && Owns(store[i], caller, id) && s == store[..i] + store[i + 1..];
    RemoveAt(store, i, s);
    assert store[i] in store;
  }

  /** `r` is `s` with the element at `i` cut out. */
  lemma RemoveAt<T>(s: seq<T>, i: int, r: seq<T>)
    requires 0 <= i < |s| && r == s[..i] + s[i + 1..]
    ensures |r| == |s| - 1
    ensures multiset(r) + multiset{s[i]} == multiset(s)
    ensures forall k :: 0 <= k < i ==> r[k] == s[k]
    ensures forall k :: i <= k < |r| ==> r[k] == s[k + 1]
  {
    assert s == s[..i] + [s[i]] + s[i + 1..];
  }

  /** With unique ids, no record with the deleted id is left. */
  lemma {:induction false} DeleteLeavesNoSuchId(store: Store, caller: UserId, id: ExpenseId)
    requires UniqueIds(store)
    requires DeleteExpense(store, caller, id).Ok?
    ensures forall e :: e in DeleteExpense(store, caller, id).value ==> e.id != id
  {
    var s := DeleteExpense(store, caller, id).value;
    var i :| 0 <= i < |store| && Owns(store[i], caller, id) && s == store[..i] + store[i + 1..];
    RemoveAt(store, i, s);
    forall e | e in s ensures e.id != id {
      var k :| 0 <= k < |s| && s[k] == e;
      if k < i {
        assert s[k] == store[k] && store[k].id != store[i].id;
      } else {
        assert s[k] == store[k + 1] && store[i].id != store[k + 1].id;
      }
    }
  }

  /** Every record of another owner is still there after a delete. */
  lemma {:induction false} DeleteKeepsOthers(store: Store, caller: UserId, id: ExpenseId)
    requires DeleteExpense(store, caller, id).Ok?
    ensures forall e :: e in store && e.owner != caller ==> e in DeleteExpense(store, caller, id).value
  {
    var s := DeleteExpense(store, caller, id).value;
    var i :| 0 <= i < |store| && Owns(store[i], caller, id) && s == store[..i] + store[i + 1..];
    RemoveAt(store, i, s);
    forall e | e in store && e.owner != caller ensures e in s {
      var k :| 0 <= k < |store| && store[k] == e;
      assert k != i;
      if k < i {
        assert s[k] == e;
      } else {
        assert s[k - 1] == e;
      }
    }
  }
}
