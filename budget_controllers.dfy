/** The handlers of `budgetControllers.js`: each runs its checks in a fixed
    order, answers with the first that fails, and otherwise calls the
    `budgets` table once. `userId` is `req.user.userId`; a thrown error is
    answered with 500 and the error's message. */
module BudgetControllers {
  import opened Wrappers
  import opened Json
  import opened Http
  import Categories
  import UpdateBuilder
  import DateValidator
  import opened Budgets

  const AllRequired := "Todos los campos son obligatorios"
  /** What `validarFecha` throws when handed a date that is not a string. */
  const NotAString := "fecha.includes is not a function"
  const ServerError := "Error interno en el servidor."
  // updateBudget's fallback has no period.
  const ServerErrorOnUpdate := "Error interno en el servidor"
  const BudgetCreated := "Presupuesto creado exitosamente."
  const BudgetMissing := "Presupuesto no encontrado."
  // deleteBudget's text has no period.
  const BudgetMissingOnDelete := "Presupuesto no encontrado"
  const NotYoursToModify := "No tienes permisos para modificar este presupuesto."
  const NothingToUpdate := "No se proporcionaron datos para actualizar."
  const BudgetUpdated := "Presupuesto actualizado exitosamente."
  const NotYoursToDelete := "No tienes permisos para eliminar este presupuesto"
  const BudgetDeleted := "Presupuesto eliminado exitosamente."
  const IdRequired := "ID de presupuesto requerido."
  const NotYoursToSee := "No tienes permisos para ver este presupuesto"
  const NameRequired := "Nombre de presupuesto requerido."
  const NoneFound := "No se encontraron presupuestos para este usuario."
  const StateRequired := "Debe especificar el estado (true o false)."

  // ---------------------------------------------------------------------
  // createBudget

  /** All five of `nombre`, `inicio`, `fin`, `monto`, `categoria_id` are
      truthy; `periodo` and `estado` are not checked. */
  predicate HasBudgetFields(body: Object)
  {
    Given(body, "nombre") && Given(body, "inicio") && Given(body, "fin") && Given(body, "monto")
    && Given(body, "categoria_id")
  }

  /** `createBudget`'s checks: the required fields, then
      `validarRangoFechas(inicio, fin)`, whose refusal is a 400 carrying its
      message. A date that is not a string makes the validator throw (500),
      but only once the validator reaches it: an invalid `inicio` is
      reported before a non-string `fin` is looked at. */
  function CreateBudgetCheck(body: Object, currentYear: int): (c: Check)
    ensures !HasBudgetFields(body) ==> c == Deny(400, AllRequired)
    ensures c == Pass <==>
              && HasBudgetFields(body) && body["inicio"].Str? && body["fin"].Str?
              && DateValidator.ValidarRangoFechas(body["inicio"].s, body["fin"].s, currentYear).valido
    ensures HasBudgetFields(body) && body["inicio"].Str? && body["fin"].Str?
            && !DateValidator.ValidarRangoFechas(body["inicio"].s, body["fin"].s, currentYear).valido ==>
              c == Deny(400, DateValidator.ValidarRangoFechas(body["inicio"].s, body["fin"].s, currentYear).mensaje)
    ensures HasBudgetFields(body) && !body["inicio"].Str? ==> c == Deny(500, NotAString)
    ensures c.Stop? ==> c.reply.status in {400, 500}
  {
    if !HasBudgetFields(body) then Deny(400, AllRequired)
    else if !body["inicio"].Str? then Deny(500, NotAString)
    else
      var start := DateValidator.ValidarFecha(body["inicio"].s, false, currentYear);
      if !start.valido then Deny(400, start.mensaje)
      else if !body["fin"].Str? then Deny(500, NotAString)
      else
        var v := DateValidator.ValidarRangoFechas(body["inicio"].s, body["fin"].s, currentYear);
        if !v.valido then Deny(400, v.mensaje) else Pass
  }

  /** A destructured field that is absent is `undefined`. */
  function Field(body: Object, key: string): Option<Value>
  {
    if key in body then Some(body[key]) else None
  }

  /** `createBudget`: after the checks, `Budget.create`; its refusal (a
      category that is missing or someone else's, or an `undefined`
      `periodo` or `estado`) becomes a 500 carrying the error's message.
      A created budget is listed for its owner from then on. */
  method CreateBudget(store: BudgetStore, categories: map<int, Categories.Category>, userId: int, body: Object, currentYear: int)
    returns (reply: Reply, json: Option<Object>)
    requires store.Valid()
    modifies store
    ensures store.Valid()
    ensures CreateBudgetCheck(body, currentYear).Stop? ==>
              reply == CreateBudgetCheck(body, currentYear).reply && json.None? && unchanged(store)
    ensures CreateBudgetCheck(body, currentYear) == Pass ==>
              && (reply.status == 201 <==>
                    Categories.UseCheck(categories, body["categoria_id"], userId, CategoryMissingOnCreate).Success?
                    && "periodo" in body && "estado" in body)
              && (reply.status != 201 ==> reply.status == 500 && json.None? && store.rows == old(store.rows))
              && (reply.status != 201 ==>
                    reply.message ==
                      if Categories.UseCheck(categories, body["categoria_id"], userId, CategoryMissingOnCreate).Failure?
                      then Categories.UseCheck(categories, body["categoria_id"], userId, CategoryMissingOnCreate).error
                      else UndefinedBind)
              && (reply.status == 201 ==>
                    && reply.message == BudgetCreated
                    && json.Some? && "periodo" !in json.value
                    && exists id :: id !in old(store.rows) && id in store.rows
                                    && store.rows == old(store.rows)[id := store.rows[id]]
                                    && store.rows[id].usuarioId == userId
                                    && store.rows[id].fields ==
                                         map["nombre" := body["nombre"], "periodo" := body["periodo"], "inicio" := body["inicio"],
                                             "fin" := body["fin"], "monto" := ParseFloat(body["monto"]), "estado" := body["estado"],
                                             "categoria_id" := Num(Categories.CategoryKey(body["categoria_id"]).value)]
                                    && json.value == ToJson(AsObject(store.rows[id]))
                                    && store.rows[id] in GetBudgetByUser(store.rows, userId).items)
  {
    var check := CreateBudgetCheck(body, currentYear);
    if check.Stop? {
      return check.reply, None;
    }
    var r := store.Create(categories, body["nombre"], Field(body, "periodo"), body["inicio"], body["fin"], body["monto"],
                          Field(body, "estado"), body["categoria_id"], userId);
    match r
    case Failure(e) =>
      reply, json := Reply(500, MessageOr(e, ServerError)), None;
    case Success(b) =>
      assert store.rows[b.id] == b;
      assert b in store.rows.Values;
      reply, json := Reply(201, BudgetCreated), Some(ToJson(AsObject(b)));
  }

  // ---------------------------------------------------------------------
  // updateBudget, deleteBudget, getBudgetById

  /** `updateBudget`'s checks: 404, then 403 for another user's budget,
      then 400 for an empty body. */
  function UpdateBudgetCheck(rows: map<int, Budget>, userId: int, id: int, body: Object): (c: Check)
    ensures id !in rows ==> c == Deny(404, BudgetMissing)
    ensures id in rows && rows[id].usuarioId != userId ==> c == Deny(403, NotYoursToModify)
    ensures c == Pass <==> id in rows && rows[id].usuarioId == userId && body != map[]
    ensures c.Stop? ==> c.reply.status in {400, 403, 404}
  {
    match FindById(rows, id)
    case None => Deny(404, BudgetMissing)
    case Some(b) =>
      if b.usuarioId != userId then Deny(403, NotYoursToModify)
      else if body == map[] then Deny(400, NothingToUpdate)
      else Pass
  }

  /** `updateBudget`: after the checks, `budget.update(req.body)`; what it
      throws (a refused category, or no updatable column) is answered with
      500 and that very message. */
  method UpdateBudget(store: BudgetStore, categories: map<int, Categories.Category>, userId: int, id: int, body: Object)
    returns (reply: Reply, json: Option<Object>)
    requires store.Valid()
    modifies store
    ensures store.Valid()
    ensures UpdateBudgetCheck(old(store.rows), userId, id, body).Stop? ==>
              reply == UpdateBudgetCheck(old(store.rows), userId, id, body).reply && json.None? && unchanged(store)
    ensures UpdateBudgetCheck(old(store.rows), userId, id, body) == Pass ==>
              && (reply.status == 500 <==> UpdateStatement(old(store.rows)[id], body, categories).Failure?)
              && (reply.status == 500 ==>
                    && reply.message == UpdateStatement(old(store.rows)[id], body, categories).error
                    && json.None? && store.rows == old(store.rows))
              && (reply.status != 500 ==>
                    && reply == Reply(200, BudgetUpdated)
                    && json == Some(ToJson(Assign(AsObject(old(store.rows)[id]), body)))
                    && id in store.rows && store.rows[id].usuarioId == userId
                    && store.rows == old(store.rows)[id := old(store.rows)[id].(fields :=
                                       UpdateBuilder.Overwrite(old(store.rows)[id].fields, BudgetColumns, body))])
    ensures store.rows.Keys == old(store.rows).Keys
    ensures forall k :: k in store.rows && k != id ==> store.rows[k] == old(store.rows)[k]
  {
    var check := UpdateBudgetCheck(store.rows, userId, id, body);
    if check.Stop? {
      return check.reply, None;
    }
    var r := store.Update(id, body, categories);
    match r
    case Failure(e) =>
      reply, json := Reply(500, MessageOr(e, ServerErrorOnUpdate)), None;
    case Success(obj) =>
      reply, json := Reply(200, BudgetUpdated), Some(ToJson(obj));
  }

  /** `deleteBudget`'s checks: 404, then 403 for another user's budget. */
  function DeleteBudgetCheck(rows: map<int, Budget>, userId: int, id: int): (c: Check)
    ensures id !in rows ==> c == Deny(404, BudgetMissingOnDelete)
    ensures c == Pass <==> id in rows && rows[id].usuarioId == userId
    ensures c.Stop? && id in rows ==> c == Deny(403, NotYoursToDelete)
  {
    match FindById(rows, id)
    case None => Deny(404, BudgetMissingOnDelete)
    case Some(b) => if b.usuarioId != userId then Deny(403, NotYoursToDelete) else Pass
  }

  /** `deleteBudget`: only the owner's budget is removed. */
  method DeleteBudget(store: BudgetStore, userId: int, id: int) returns (reply: Reply)
    requires store.Valid()
    modifies store
    ensures store.Valid()
    ensures DeleteBudgetCheck(old(store.rows), userId, id).Stop? ==>
              reply == DeleteBudgetCheck(old(store.rows), userId, id).reply && unchanged(store)
    ensures DeleteBudgetCheck(old(store.rows), userId, id) == Pass ==>
              reply == Reply(200, BudgetDeleted) && store.rows == old(store.rows) - {id}
  {
    var check := DeleteBudgetCheck(store.rows, userId, id);
    if check.Stop? {
      return check.reply;
    }
    store.Delete(id);
    reply := Reply(200, BudgetDeleted);
  }

  /** `getBudgetById`: 400 without an id, 404, 403 for another user's
      budget, otherwise its `toJSON`, which never shows `periodo`. */
  function GetBudgetById(rows: map<int, Budget>, userId: int, id: Option<int>): (r: Result<Object, Reply>)
    ensures id.None? ==> r == Failure(Reply(400, IdRequired))
    ensures id.Some? && id.value !in rows ==> r == Failure(Reply(404, BudgetMissing))
    ensures id.Some? && id.value in rows && rows[id.value].usuarioId != userId ==> r == Failure(Reply(403, NotYoursToSee))
    ensures r.Success? <==> id.Some? && id.value in rows && rows[id.value].usuarioId == userId
    ensures r.Success? ==> r.value == ToJson(AsObject(rows[id.value])) && r.value["usuario_id"] == Num(userId)
    ensures r.Success? ==> "periodo" !in r.value
  {
    if id.None? then Failure(Reply(400, IdRequired))
    else match FindById(rows, id.value)
      case None => Failure(Reply(404, BudgetMissing))
      case Some(b) =>
        if b.usuarioId != userId then Failure(Reply(403, NotYoursToSee))
        else Success(ToJson(AsObject(b)))
  }

  // ---------------------------------------------------------------------
  // getBudgetByName

  /** `getBudgetByName` as written: `findByName` answers a list, and the
      handler compares the list's `usuario_id` (which a list does not have)
      with the caller, so every search that finds something is refused
      with 403 and no search ever answers a budget. */
  function GetBudgetByName(rows: map<int, Budget>, userId: int, nombre: Option<string>): (reply: Reply)
    ensures nombre.None? || nombre.value == "" ==> reply == Reply(400, NameRequired)
    ensures nombre.Some? && nombre.value != "" ==>
              (reply == Reply(403, NotYoursToSee) <==>
                 exists id :: id in rows && rows[id].usuarioId == userId && NameContains(rows[id], nombre.value))
    ensures reply.status in {400, 403, 404}
  {
    if nombre.None? || nombre.value == "" then Reply(400, NameRequired)
    else match FindByName(rows, userId, nombre.value)
      case None => Reply(404, BudgetMissing)
      case Some(_) => Reply(403, NotYoursToSee)
  }

  // ---------------------------------------------------------------------
  // list handlers

  /** `getBudgetByUser`: the caller's budgets; none is an empty 200, never
      an error. */
  function GetBudgetByUser(rows: map<int, Budget>, userId: int): (l: Listing<Budget>)
    ensures l.count == |l.items|
    ensures l.count == 0 <==> forall id :: id in rows ==> rows[id].usuarioId != userId
    ensures forall b :: b in l.items <==> b in rows.Values && b.usuarioId == userId
    ensures l.count == |set id | id in rows && rows[id].usuarioId == userId|
  {
    ListingOf(FindByUserId(rows, userId), NoneFound)
  }

  /** The number `getBudgetByState` searches for: 1 for the text `true`
      exactly, 0 for anything else (`false`, `TRUE`, `1`, ...). */
  function StateNumber(estado: string): (n: int)
    ensures n == 1 <==> estado == "true"
    ensures n == 0 <==> estado != "true"
  {
    if estado == "true" then 1 else 0
  }

  /** `getBudgetByState`: `estado` must be given; then the caller's budgets
      whose stored `estado` equals its `StateNumber`. */
  function GetBudgetByState(rows: map<int, Budget>, userId: int, estado: Option<string>): (r: Result<Listing<Budget>, Reply>)
    ensures r.Failure? <==> estado.None? || estado.value == ""
    ensures r.Failure? ==> r.error == Reply(400, StateRequired)
    ensures r.Success? ==> r.value.count == |r.value.items|
    ensures r.Success? ==>
              forall b :: b in r.value.items <==>
                b in rows.Values && b.usuarioId == userId && EstadoNumber(Column(b, "estado")) == Some(StateNumber(estado.value))
    ensures r.Success? ==>
              r.value.count ==
                |set id | id in rows && rows[id].usuarioId == userId && EstadoNumber(Column(rows[id], "estado")) == Some(StateNumber(estado.value))|
  {
    if estado.None? || estado.value == "" then Failure(Reply(400, StateRequired))
    else Success(ListingOf(FindByState(rows, userId, StateNumber(estado.value)), NoneFound))
  }

  /** Any `estado` other than `true` asks for the inactive budgets. */
  lemma AnyOtherStateMeansInactive(rows: map<int, Budget>, userId: int, estado: string)
    requires estado != "" && estado != "true"
    ensures GetBudgetByState(rows, userId, Some(estado)) == GetBudgetByState(rows, userId, Some("false"))
  {
    assert StateNumber(estado) == StateNumber("false");
  }
}
