/** The handlers of `categoryControllers.js`: each runs its checks in a
    fixed order and answers with the first that fails, then makes one call
    into the `categories` table. `userId` is `req.user.userId`. Every
    handler answers a thrown error with 500 and the same generic text. */
module CategoryControllers {
  import opened Wrappers
  import opened Json
  import opened Http
  import opened Categories

  const ServerError := "Error en el servidor"
  const TypeRequired := "El parametro type es requerido."
  const TypeInvalid := "El tipo debe ser \"Ingreso\" o \"Gasto\"."
  const NameAndTypeRequired := "Nombre y Tipo son obligatorios."
  // createCategory's text has no closing period.
  const TypeInvalidOnCreate := "El tipo debe ser \"Ingreso\" o \"Gasto\""
  const CategoryCreated := "Categoria creada exitosamente."
  const CategoryMissing := "Categoria no encontrada."
  const NotYoursToModify := "No tienes permisos para modificar esta categoría"
  // The handler's own spelling ("modifcar").
  const DefaultNotModifiable := "No puedes modifcar categorias predeterminadas."
  const CategoryUpdated := "Categoria actualizada exitosamente."
  const NotYoursToDelete := "No tienes permisos para eliminar esta categoría"
  const DefaultNotDeletable := "No puedes eliminar categorias predeterminadas."
  const CategoryDeleted := "Categoria eliminada exitosamente."

  const DefaultColor := Str("#007bff")
  const DefaultIcon := Str("category")

  /** The two category types the handlers accept (lower case, although the
      messages spell them capitalised). */
  predicate IsCategoryType(tipo: Value)
  {
    tipo == Str("ingreso") || tipo == Str("gasto")
  }

  /** `getCategories`: the default categories and the caller's own. When
      there are none the finder answers `null`, whose `.map` throws, so the
      caller gets a 500 instead of an empty list. */
  function GetCategories(rows: map<int, Category>, userId: int): (r: Result<seq<Category>, Reply>)
    ensures r.Failure? <==> forall id :: id in rows ==> !Visible(rows[id], userId)
    ensures r.Failure? ==> r.error == Reply(500, ServerError)
    ensures r.Success? ==> forall c :: c in r.value <==> c in rows.Values && Visible(c, userId)
  {
    match GetAvailableForUser(rows, userId)
    case None => Failure(Reply(500, ServerError))
    case Some(categories) => Success(categories)
  }

  /** `getCategoriesByType`: `type` must be given and be `ingreso` or
      `gasto`; the answer is the (possibly empty) sorted list. */
  function GetCategoriesByType(rows: map<int, Category>, userId: int, tipo: Option<string>): (r: Result<seq<Category>, Reply>)
    ensures (tipo.None? || tipo.value == "") ==> r == Failure(Reply(400, TypeRequired))
    ensures tipo.Some? && tipo.value != "" && !IsCategoryType(Str(tipo.value)) ==> r == Failure(Reply(400, TypeInvalid))
    ensures r.Success? <==> tipo.Some? && IsCategoryType(Str(tipo.value))
    ensures r.Success? ==> forall c :: c in r.value <==>
              (exists id :: id in rows && rows[id] == c) && Visible(c, userId) && c.tipo == Str(tipo.value)
  {
    if tipo.None? || tipo.value == "" then Failure(Reply(400, TypeRequired))
    else if !IsCategoryType(Str(tipo.value)) then Failure(Reply(400, TypeInvalid))
    else Success(FindByUserAndType(rows, userId, Str(tipo.value)))
  }

  /** `createCategory`'s checks: `nombre` and `tipo` truthy, then `tipo`
      one of the two types. */
  function CreateCategoryCheck(body: Object): (c: Check)
    ensures !Given(body, "nombre") || !Given(body, "tipo") ==> c == Deny(400, NameAndTypeRequired)
    ensures c == Pass <==> Given(body, "nombre") && Given(body, "tipo") && IsCategoryType(body["tipo"])
    ensures c.Stop? ==> c.reply.status == 400
  {
    if !Given(body, "nombre") || !Given(body, "tipo") then Deny(400, NameAndTypeRequired)
    else if !IsCategoryType(body["tipo"]) then Deny(400, TypeInvalidOnCreate)
    else Pass
  }

  /** `createCategory`: a new custom category owned by the caller, with
      `descripcion || null`, `color || '#007bff'` and `icon || 'category'`;
      the caller sees it in both finders afterwards. */
  method CreateCategory(store: CategoryStore, userId: int, body: Object) returns (reply: Reply, created: Option<Category>)
    requires store.Valid()
    modifies store
    ensures store.Valid()
    ensures CreateCategoryCheck(body).Stop? ==>
              reply == CreateCategoryCheck(body).reply && created.None? && unchanged(store)
    ensures CreateCategoryCheck(body) == Pass ==>
              && reply == Reply(201, CategoryCreated)
              && created.Some? && created.value.id !in old(store.rows)
              && created.value.usuarioId == Some(userId) && !created.value.isDefault
              && created.value.tipo == body["tipo"]
              && created.value.fields == map["nombre" := body["nombre"],
                                             "descripcion" := OrElse(body, "descripcion", Null),
                                             "color" := OrElse(body, "color", DefaultColor),
                                             "icon" := OrElse(body, "icon", DefaultIcon)]
              && store.rows == old(store.rows)[created.value.id := created.value]
              && created.value in FindByUserAndType(store.rows, userId, created.value.tipo)
  {
    var check := CreateCategoryCheck(body);
    if check.Stop? {
      return check.reply, None;
    }
    var c := store.Create(body["nombre"], OrElse(body, "descripcion", Null), body["tipo"],
                          OrElse(body, "color", DefaultColor), OrElse(body, "icon", DefaultIcon), userId);
    CreatedIsListed(old(store.rows), c, userId);
    reply, created := Reply(201, CategoryCreated), Some(c);
  }

  /** The checks `updateCategory` and `deleteCategory` share: 404, then 403
      for a category owned by someone else, then 403 for a default one. */
  function ChangeCheck(category: Option<Category>, userId: int, notYours: string, isDefault: string): (c: Check)
    ensures category.None? ==> c == Deny(404, CategoryMissing)
    ensures category.Some? && !Usable(category.value, userId) ==> c == Deny(403, notYours)
    ensures category.Some? && Usable(category.value, userId) && category.value.isDefault ==> c == Deny(403, isDefault)
    ensures c == Pass <==> category.Some? && Usable(category.value, userId) && !category.value.isDefault
  {
    if category.None? then Deny(404, CategoryMissing)
    else if category.value.usuarioId.Some? && category.value.usuarioId.value != userId then Deny(403, notYours)
    else if category.value.isDefault then Deny(403, isDefault)
    else Pass
  }

  /** `updateCategory`'s check chain. */
  function UpdateCategoryCheck(rows: map<int, Category>, userId: int, id: int): (c: Check)
    ensures c == ChangeCheck(FindById(rows, id), userId, NotYoursToModify, DefaultNotModifiable)
    ensures c == Pass <==> id in rows && Usable(rows[id], userId) && !rows[id].isDefault
  {
    ChangeCheck(FindById(rows, id), userId, NotYoursToModify, DefaultNotModifiable)
  }

  /** `deleteCategory`'s check chain. */
  function DeleteCategoryCheck(rows: map<int, Category>, userId: int, id: int): (c: Check)
    ensures c == ChangeCheck(FindById(rows, id), userId, NotYoursToDelete, DefaultNotDeletable)
    ensures c == Pass <==> id in rows && Usable(rows[id], userId) && !rows[id].isDefault
  {
    ChangeCheck(FindById(rows, id), userId, NotYoursToDelete, DefaultNotDeletable)
  }

  /** Once `updateCategory`'s checks pass, `category.update` can only
      throw for a body with no updatable key: its own default check never
      fires. */
  lemma UpdateAfterCheck(rows: map<int, Category>, userId: int, id: int, body: Object)
    requires UpdateCategoryCheck(rows, userId, id) == Pass
    ensures UpdateStatement(rows[id], body).Failure? ==> UpdateStatement(rows[id], body).error != CannotModifyDefault
  {
    assert UpdateStatement(rows[id], body).Failure? ==> UpdateStatement(rows[id], body).error == UpdateBuilder.NoFields;
  }

  /** `updateCategory`: after the checks, `category.update(req.body)`; a
      throw becomes 500, otherwise 200 with the object's `toJSON`. */
  method UpdateCategory(store: CategoryStore, userId: int, id: int, body: Object) returns (reply: Reply, json: Option<Object>)
    requires store.Valid()
    modifies store
    ensures store.Valid()
    ensures UpdateCategoryCheck(old(store.rows), userId, id).Stop? ==>
              reply == UpdateCategoryCheck(old(store.rows), userId, id).reply && json.None? && unchanged(store)
    ensures UpdateCategoryCheck(old(store.rows), userId, id) == Pass ==>
              && (reply.status == 500 <==> forall col :: col in CategoryColumns ==> col !in body)
              && (reply.status == 500 ==> reply.message == ServerError && json.None? && store.rows == old(store.rows))
              && (reply.status != 500 ==>
                    && reply == Reply(200, CategoryUpdated)
                    && json == Some(ToJson(Assign(AsObject(old(store.rows)[id]), body)))
                    && store.rows == old(store.rows)[id := old(store.rows)[id].(fields := UpdateBuilder.Overwrite(old(store.rows)[id].fields, CategoryColumns, body))])
    ensures store.rows.Keys == old(store.rows).Keys
    ensures forall k :: k in store.rows ==> store.rows[k].tipo == old(store.rows)[k].tipo
  {
    var check := UpdateCategoryCheck(store.rows, userId, id);
    if check.Stop? {
      return check.reply, None;
    }
    var r := store.Update(id, body);
    match r
    case Failure(_) =>
      reply, json := Reply(500, ServerError), None;
    case Success(obj) =>
      reply, json := Reply(200, CategoryUpdated), Some(ToJson(obj));
  }

  /** `deleteCategory`: after the checks, `category.delete()` removes the
      row, whatever number of transactions still point at it
      (`transactionCount`). */
  method DeleteCategory(store: CategoryStore, userId: int, id: int, transactionCount: int) returns (reply: Reply)
    requires store.Valid()
    modifies store
    ensures store.Valid()
    ensures DeleteCategoryCheck(old(store.rows), userId, id).Stop? ==>
              reply == DeleteCategoryCheck(old(store.rows), userId, id).reply && unchanged(store)
    ensures DeleteCategoryCheck(old(store.rows), userId, id) == Pass ==>
              reply == Reply(200, CategoryDeleted) && store.rows == old(store.rows) - {id}
  {
    var check := DeleteCategoryCheck(store.rows, userId, id);
    if check.Stop? {
      return check.reply;
    }
    var r := store.Delete(id, transactionCount);
    reply := Reply(200, CategoryDeleted);
  }

  /** `deleteCategory` and `canDelete` disagree: a custom category the
      caller owns and that still has transactions is one `canDelete`
      refuses and `deleteCategory` removes. */
  lemma DeleteIgnoresCanDelete(rows: map<int, Category>, userId: int, id: int, transactionCount: int)
    requires id in rows && rows[id].usuarioId == Some(userId) && !rows[id].isDefault
    requires transactionCount > 0
    ensures DeleteCategoryCheck(rows, userId, id) == Pass
    ensures !CanDelete(rows[id], Success(transactionCount))
  {
  }
}
