/** The handlers of `transactionControllers.js`: each runs its checks in a
    fixed order, answers with the first that fails, and otherwise calls the
    `transactions` table once. `userId` is `req.user.userId`; a thrown error
    is answered with 500 and one generic text. */
module TransactionControllers {
  import opened Wrappers
  import opened Json
  import opened Http
  import opened Sorting
  import Categories
  import UpdateBuilder
  import DateValidator
  import opened Transactions

  const AllRequired := "Todos los campos son obligatorios."
  const ServerError := "Error interno en el servidor."
  const TransactionCreated := "Transaccion creada exitosamente."
  const TransactionMissing := "Transaccion no encontrada"
  // getTransactionById's text ends with a period.
  const TransactionMissingById := "Transaccion no encontrada."
  const NotYoursToModify := "No tienes permisos para modificar esta transaccion."
  const NothingToUpdate := "No se proporcionaron datos para actualizar."
  const TransactionUpdated := "Transaccion actualizada exitosamente."
  const NotYoursToDelete := "No tienes permisos para eliminar esta transaccion"
  const TransactionDeleted := "Transaccion eliminada exitosamente."
  const IdRequired := "ID de transaccion requerido."
  const NotYoursToSee := "No tienes permisos para ver esta transaccion"
  const NoneFound := "No se encontraron transacciones para este usuario."
  const TypeRequired := "El tipo de transaccion es requerido."
  // The handler's own spelling ("deber ser").
  const TypeInvalid := "El tipo deber ser \"Ingreso\" o \"Gasto\"."
  const CategoryRequired := "El id de la categoria es requerido."

  // ---------------------------------------------------------------------
  // createTransaction

  /** All five of `tipo`, `descripcion`, `monto`, `fecha`, `categoria_id`
      are truthy. */
  predicate HasTransactionFields(body: Object)
  {
    Given(body, "tipo") && Given(body, "descripcion") && Given(body, "monto") && Given(body, "fecha")
    && Given(body, "categoria_id")
  }

  /** `createTransaction`: 400 unless every field is given; then
      `Transaction.create`, whose category refusal becomes a 500. */
  method CreateTransaction(store: TransactionStore, categories: map<int, Categories.Category>, userId: int, body: Object)
    returns (reply: Reply, created: Option<Transaction>)
    requires store.Valid()
    modifies store
    ensures store.Valid()
    ensures !HasTransactionFields(body) ==> reply == Reply(400, AllRequired) && created.None? && unchanged(store)
    ensures HasTransactionFields(body) ==>
              && (reply.status == 201 <==> CategoryCheck(categories, body["categoria_id"], userId).Success?)
              && (reply.status != 201 ==> reply == Reply(500, ServerError) && created.None? && store.rows == old(store.rows))
              && (reply.status == 201 ==>
                    && reply.message == TransactionCreated
                    && created.Some? && created.value.id !in old(store.rows)
                    && created.value.usuarioId == userId
                    && created.value.fields ==
                         map["tipo" := body["tipo"], "descripcion" := OrElse(body, "descripcion", Null),
                             "monto" := ParseFloat(body["monto"]), "fecha" := body["fecha"],
                             "categoria_id" := Num(Categories.CategoryKey(body["categoria_id"]).value)]
                    && store.rows == old(store.rows)[created.value.id := created.value])
  {
    if !HasTransactionFields(body) {
      return Reply(400, AllRequired), None;
    }
    var r := store.Create(categories, body["tipo"], OrElse(body, "descripcion", Null), body["monto"], body["fecha"],
                          body["categoria_id"], userId);
    match r
    case Failure(_) =>
      reply, created := Reply(500, ServerError), None;
    case Success(t) =>
      reply, created := Reply(201, TransactionCreated), Some(t);
  }

  // ---------------------------------------------------------------------
  // updateTransaction, deleteTransaction, getTransactionById

  /** `updateTransaction`'s checks: 404, then 403 for another user's row,
      then 400 for an empty body. */
  function UpdateTransactionCheck(rows: map<int, Transaction>, userId: int, id: int, body: Object): (c: Check)
    ensures id !in rows ==> c == Deny(404, TransactionMissing)
    ensures id in rows && rows[id].usuarioId != userId ==> c == Deny(403, NotYoursToModify)
    ensures c == Pass <==> id in rows && rows[id].usuarioId == userId && body != map[]
    ensures c.Stop? ==> c.reply.status in {400, 403, 404}
  {
    match FindById(rows, id)
    case None => Deny(404, TransactionMissing)
    case Some(t) =>
      if t.usuarioId != userId then Deny(403, NotYoursToModify)
      else if body == map[] then Deny(400, NothingToUpdate)
      else Pass
  }

  /** `updateTransaction`: after the checks, `transaction.update(req.body)`;
      a refused category or a body with no updatable column becomes 500. */
  method UpdateTransaction(store: TransactionStore, categories: map<int, Categories.Category>, userId: int, id: int, body: Object)
    returns (reply: Reply, json: Option<Object>)
    requires store.Valid()
    modifies store
    ensures store.Valid()
    ensures UpdateTransactionCheck(old(store.rows), userId, id, body).Stop? ==>
              reply == UpdateTransactionCheck(old(store.rows), userId, id, body).reply && json.None? && unchanged(store)
    ensures UpdateTransactionCheck(old(store.rows), userId, id, body) == Pass ==>
              && (reply.status == 500 <==> UpdateStatement(old(store.rows)[id], body, categories).Failure?)
              && (reply.status == 500 ==> reply.message == ServerError && json.None? && store.rows == old(store.rows))
              && (reply.status != 500 ==>
                    && reply == Reply(200, TransactionUpdated)
                    && json == Some(ToJson(Assign(AsObject(old(store.rows)[id]), body)))
                    && id in store.rows && store.rows[id].usuarioId == userId
                    && store.rows == old(store.rows)[id := old(store.rows)[id].(fields :=
                                       UpdateBuilder.Overwrite(old(store.rows)[id].fields, TransactionColumns, body))])
    ensures store.rows.Keys == old(store.rows).Keys
    ensures forall k :: k in store.rows ==> store.rows[k].usuarioId == old(store.rows)[k].usuarioId
    ensures forall k :: k in store.rows && k != id ==> store.rows[k] == old(store.rows)[k]
  {
    var check := UpdateTransactionCheck(store.rows, userId, id, body);
    if check.Stop? {
      return check.reply, None;
    }
    var r := store.Update(id, body, categories);
    match r
    case Failure(_) =>
      reply, json := Reply(500, ServerError), None;
    case Success(obj) =>
      reply, json := Reply(200, TransactionUpdated), Some(ToJson(obj));
  }

  /** `deleteTransaction`'s checks: 404, then 403 for another user's row. */
  function DeleteTransactionCheck(rows: map<int, Transaction>, userId: int, id: int): (c: Check)
    ensures id !in rows ==> c == Deny(404, TransactionMissing)
    ensures c == Pass <==> id in rows && rows[id].usuarioId == userId
    ensures c.Stop? && id in rows ==> c == Deny(403, NotYoursToDelete)
  {
    match FindById(rows, id)
    case None => Deny(404, TransactionMissing)
    case Some(t) => if t.usuarioId != userId then Deny(403, NotYoursToDelete) else Pass
  }

  /** `deleteTransaction`: only the owner's row is removed. */
  method DeleteTransaction(store: TransactionStore, userId: int, id: int) returns (reply: Reply)
    requires store.Valid()
    modifies store
    ensures store.Valid()
    ensures DeleteTransactionCheck(old(store.rows), userId, id).Stop? ==>
              reply == DeleteTransactionCheck(old(store.rows), userId, id).reply && unchanged(store)
    ensures DeleteTransactionCheck(old(store.rows), userId, id) == Pass ==>
              reply == Reply(200, TransactionDeleted) && store.rows == old(store.rows) - {id}
  {
    var check := DeleteTransactionCheck(store.rows, userId, id);
    if check.Stop? {
      return check.reply;
    }
    store.Delete(id);
    reply := Reply(200, TransactionDeleted);
  }

  /** `getTransactionById`: 400 without an id, 404, 403 for another user's
      row, otherwise the row's `toJSON`. */
  function GetTransactionById(rows: map<int, Transaction>, userId: int, id: Option<int>): (r: Result<Object, Reply>)
    ensures id.None? ==> r == Failure(Reply(400, IdRequired))
    ensures id.Some? && id.value !in rows ==> r == Failure(Reply(404, TransactionMissingById))
    ensures id.Some? && id.value in rows && rows[id.value].usuarioId != userId ==> r == Failure(Reply(403, NotYoursToSee))
    ensures r.Success? <==> id.Some? && id.value in rows && rows[id.value].usuarioId == userId
    ensures r.Success? ==> r.value == ToJson(AsObject(rows[id.value])) && r.value["usuario_id"] == Num(userId)
  {
    if id.None? then Failure(Reply(400, IdRequired))
    else match FindById(rows, id.value)
      case None => Failure(Reply(404, TransactionMissingById))
      case Some(t) =>
        if t.usuarioId != userId then Failure(Reply(403, NotYoursToSee))
        else Success(ToJson(AsObject(t)))
  }

  // ---------------------------------------------------------------------
  // list handlers

  /** `getTransactionsByUser`: the caller's rows; none is an empty 200,
      never an error. */
  function GetTransactionsByUser(rows: map<int, Transaction>, userId: int): (l: Listing<Transaction>)
    ensures l.count == |l.items|
    ensures l.count == 0 <==> forall id :: id in rows ==> rows[id].usuarioId != userId
    ensures forall t :: t in l.items <==> t in rows.Values && t.usuarioId == userId
    ensures l.count == |set id | id in rows && rows[id].usuarioId == userId|
  {
    ListingOf(FindByUserId(rows, userId), NoneFound)
  }

  /** `getTransactionsByUserAndType`: `tipo` must be given and be `ingreso`
      or `gasto`; then the caller's rows of that type. */
  function GetTransactionsByUserAndType(rows: map<int, Transaction>, userId: int, tipo: Option<string>): (r: Result<Listing<Transaction>, Reply>)
    ensures tipo.None? || tipo.value == "" ==> r == Failure(Reply(400, TypeRequired))
    ensures tipo.Some? && tipo.value !in {"", "ingreso", "gasto"} ==> r == Failure(Reply(400, TypeInvalid))
    ensures r.Success? <==> tipo.Some? && (tipo.value == "ingreso" || tipo.value == "gasto")
    ensures r.Failure? ==> r.error.status == 400
    ensures r.Success? ==> r.value.count == |r.value.items|
    ensures r.Success? ==>
              forall t :: t in r.value.items <==> t in rows.Values && t.usuarioId == userId && Column(t, "tipo") == Str(tipo.value)
    ensures r.Success? ==>
              r.value.count == |set id | id in rows && rows[id].usuarioId == userId && Column(rows[id], "tipo") == Str(tipo.value)|
  {
    if tipo.None? || tipo.value == "" then Failure(Reply(400, TypeRequired))
    else if tipo.value != "ingreso" && tipo.value != "gasto" then Failure(Reply(400, TypeInvalid))
    else Success(ListingOf(FindByUserAndType(rows, userId, Str(tipo.value)), NoneFound))
  }

  /** The value a `categoria_id` query text is compared with: its number
      when it is one, otherwise the text, which no stored number equals. */
  function CategoryParam(s: string): Value
  {
    match Categories.CategoryKey(Str(s))
    case Some(k) => Num(k)
    case None => Str(s)
  }

  /** `getTransactionsByUserAndCategory`: `categoria_id` must be given;
      then the caller's rows of that category. */
  function GetTransactionsByUserAndCategory(rows: map<int, Transaction>, userId: int, categoriaId: Option<string>): (r: Result<Listing<Transaction>, Reply>)
    ensures r.Failure? <==> categoriaId.None? || categoriaId.value == ""
    ensures r.Failure? ==> r.error == Reply(400, CategoryRequired)
    ensures r.Success? ==> r.value.count == |r.value.items|
    ensures r.Success? ==>
              forall t :: t in r.value.items <==>
                t in rows.Values && t.usuarioId == userId && Column(t, "categoria_id") == CategoryParam(categoriaId.value)
    ensures r.Success? ==>
              r.value.count ==
                |set id | id in rows && rows[id].usuarioId == userId && Column(rows[id], "categoria_id") == CategoryParam(categoriaId.value)|
  {
    if categoriaId.None? || categoriaId.value == "" then Failure(Reply(400, CategoryRequired))
    else Success(ListingOf(FindByUserAndCategory(rows, userId, CategoryParam(categoriaId.value)), NoneFound))
  }

  /** `getTransactionsByDateRange`: a missing query text makes
      `validarRangoFechas` throw (500); a range it refuses is a 400 with its
      message; an empty text it accepts is refused by `findByDateRange`
      (500); otherwise the caller's rows in the range, newest first. */
  function GetTransactionsByDateRange(rows: map<int, Transaction>, userId: int, inicio: Option<string>, fin: Option<string>, currentYear: int)
    : (r: Result<Listing<Transaction>, Reply>)
    ensures inicio.None? || fin.None? ==> r == Failure(Reply(500, ServerError))
    ensures inicio.Some? && fin.Some? && !DateValidator.ValidarRangoFechas(inicio.value, fin.value, currentYear).valido ==>
              r == Failure(Reply(400, DateValidator.ValidarRangoFechas(inicio.value, fin.value, currentYear).mensaje))
    ensures r.Success? <==> inicio.Some? && fin.Some? && inicio.value != "" && fin.value != ""
                            && DateValidator.ValidarRangoFechas(inicio.value, fin.value, currentYear).valido
    ensures r.Success? ==>
              && r.value.count == |r.value.items|
              && (forall t :: t in r.value.items <==>
                    (exists id :: id in rows && rows[id] == t) && Dated(t, userId, inicio.value, fin.value))
              && Sorted(r.value.items, FechaKey, true)
              && r.value.count == |set id | id in rows && Dated(rows[id], userId, inicio.value, fin.value)|
  {
    if inicio.None? || fin.None? then Failure(Reply(500, ServerError))
    else
      var v := DateValidator.ValidarRangoFechas(inicio.value, fin.value, currentYear);
      if !v.valido then Failure(Reply(400, v.mensaje))
      else
        ValidatedRangeIsSearchable(inicio.value, fin.value, currentYear, rows, userId);
        match FindByDateRange(rows, userId, inicio.value, fin.value)
        case Failure(_) => Failure(Reply(500, ServerError))
        case Success(found) => Success(ListingOf(found, NoneFound))
  }
}
