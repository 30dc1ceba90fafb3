/** The `budgets` table: the category rule `create` and `update` enforce,
    the sparse `update`, the finders and the `toJSON` projection. */
module Budgets {
  import opened Wrappers
  import opened Json
  import opened Text
  import opened Tables
  import opened UpdateBuilder
  import Categories

  /** A row of `budgets`: `fields` holds `nombre`, `periodo`, `inicio`,
      `fin`, `monto`, `estado` and `categoria_id`. */
  datatype Budget = Budget(id: int, usuarioId: int, fields: Object)

  /** The columns `update` may write, in the order it tests them. */
  const BudgetColumns: seq<string> := ["nombre", "periodo", "inicio", "fin", "monto", "estado", "categoria_id"]

  // `create` and `update` word the missing-category error differently.
  const CategoryMissingOnCreate := "La categoria especificada no existe."
  const CategoryMissingOnUpdate := "La categoría especificada no existe"
  /** What the MySQL driver throws when a bound parameter is `undefined`. */
  const UndefinedBind := "Bind parameters must not contain undefined. To pass SQL NULL specify JS null"

  /** The value of a column (`NULL` when absent). */
  function Column(b: Budget, name: string): Value
  {
    if name in b.fields then b.fields[name] else Null
  }

  /** The statement `update` sends, or what it throws. The category rule is
      checked only when the body defines `categoria_id`. */
  function UpdateStatement(b: Budget, body: Object, categories: map<int, Categories.Category>): (r: Result<Statement, string>)
    ensures "categoria_id" in body && Categories.UseCheck(categories, body["categoria_id"], b.usuarioId, CategoryMissingOnUpdate).Failure? ==>
              r == Failure(Categories.UseCheck(categories, body["categoria_id"], b.usuarioId, CategoryMissingOnUpdate).error)
    ensures r.Success? ==> r == Build(BudgetColumns, body, Num(b.id))
    ensures r.Success? ==> "categoria_id" in body ==>
              Categories.UseCheck(categories, body["categoria_id"], b.usuarioId, CategoryMissingOnUpdate).Success?
    ensures r.Success? ==> Clause("usuario_id") !in r.value.fields
    ensures r.Failure? && ("categoria_id" !in body ||
                           Categories.UseCheck(categories, body["categoria_id"], b.usuarioId, CategoryMissingOnUpdate).Success?) ==>
              r.error == NoFields && forall c :: c in BudgetColumns ==> c !in body
  {
    if "categoria_id" in body && Categories.UseCheck(categories, body["categoria_id"], b.usuarioId, CategoryMissingOnUpdate).Failure? then
      Failure(Categories.UseCheck(categories, body["categoria_id"], b.usuarioId, CategoryMissingOnUpdate).error)
    else
      var st := Build(BudgetColumns, body, Num(b.id));
      BuildFails(BudgetColumns, body, Num(b.id));
      if st.Success? then
        NeverWritten(BudgetColumns, body, Num(b.id), "usuario_id");
        st
      else st
  }

  /** The in-memory `Budget` object built from a row. */
  function AsObject(b: Budget): Object
  {
    b.fields + map["id" := Num(b.id), "usuario_id" := Num(b.usuarioId)]
  }

  /** The keys `toJSON` copies: every column but `periodo`. */
  const BudgetJsonKeys: set<string> :=
    {"id", "nombre", "inicio", "fin", "monto", "estado", "categoria_id", "usuario_id", "created_at", "updated_at"}

  /** `toJSON`: the object's own keys among `BudgetJsonKeys`, so a budget's
      `periodo` never reaches the client. */
  function ToJson(obj: Object): (r: Object)
    ensures "periodo" !in r
    ensures forall k :: k in obj && k != "periodo" && k in BudgetColumns ==> k in r && r[k] == obj[k]
    ensures forall k :: k in r ==> k in obj && r[k] == obj[k]
    ensures r.Keys == obj.Keys * {"id", "nombre", "inicio", "fin", "monto", "estado", "categoria_id", "usuario_id",
                                  "created_at", "updated_at"}
  {
    Project(obj, BudgetJsonKeys)
  }

  /** Every row's category, when it names one, is usable by the row's user. */
  ghost predicate CategoriesUsable(rows: map<int, Budget>, categories: map<int, Categories.Category>)
  {
    forall id :: id in rows ==>
      Categories.CategoryKey(Column(rows[id], "categoria_id")).Some? ==>
        Categories.CategoryKey(Column(rows[id], "categoria_id")).value in categories &&
        Categories.Usable(categories[Categories.CategoryKey(Column(rows[id], "categoria_id")).value], rows[id].usuarioId)
  }

  /** The `budgets` table. */
  class BudgetStore {
    var rows: map<int, Budget>
    var nextId: int

    ghost predicate Valid()
      reads this
    {
      nextId >= 1 && forall id :: id in rows ==> rows[id].id == id && id < nextId
    }

    constructor ()
      ensures Valid() && rows == map[] && nextId == 1
    {
      rows := map[];
      nextId := 1;
    }

    /** `Budget.create`: refuses a missing category or someone else's
      before inserting; then the insert itself fails when `periodo` or
      `estado` is `undefined` (`None`), which the driver refuses to bind;
      otherwise the row is stored under a fresh id, with `monto` as
      `parseFloat` reads it and `categoria_id` as a number. */
    method Create(categories: map<int, Categories.Category>, nombre: Value, periodo: Option<Value>, inicio: Value, fin: Value,
                  monto: Value, estado: Option<Value>, categoriaId: Value, userId: int) returns (r: Result<Budget, string>)
      requires Valid()
      modifies this
      ensures Valid()
      ensures Categories.UseCheck(categories, categoriaId, userId, CategoryMissingOnCreate).Failure? ==>
                r == Failure(Categories.UseCheck(categories, categoriaId, userId, CategoryMissingOnCreate).error)
      ensures r.Success? <==>
                Categories.UseCheck(categories, categoriaId, userId, CategoryMissingOnCreate).Success? && periodo.Some? && estado.Some?
      ensures Categories.UseCheck(categories, categoriaId, userId, CategoryMissingOnCreate).Success? && (periodo.None? || estado.None?) ==>
                r == Failure(UndefinedBind)
      ensures r.Failure? ==> rows == old(rows)
      ensures r.Success? ==>
                && r.value.id !in old(rows) && (forall id :: id in old(rows) ==> id < r.value.id)
                && r.value.usuarioId == userId
                && r.value.fields == map["nombre" := nombre, "periodo" := periodo.value, "inicio" := inicio, "fin" := fin,
                                         "monto" := ParseFloat(monto), "estado" := estado.value,
                                         "categoria_id" := Num(Categories.CategoryKey(categoriaId).value)]
                && rows == old(rows)[r.value.id := r.value]
    {
      var check := Categories.UseCheck(categories, categoriaId, userId, CategoryMissingOnCreate);
      if check.Failure? {
        return Failure(check.error);
      }
      if periodo.None? || estado.None? {
        return Failure(UndefinedBind);
      }
      var b := Budget(nextId, userId, map["nombre" := nombre, "periodo" := periodo.value, "inicio" := inicio, "fin" := fin,
                                          "monto" := ParseFloat(monto), "estado" := estado.value,
                                          "categoria_id" := Num(Categories.CategoryKey(categoriaId).value)]);
      rows := rows[nextId := b];
      nextId := nextId + 1;
      r := Success(b);
    }

    /** `budget.update(updateData)`: throws what `UpdateStatement` throws,
      otherwise writes the defined columns and answers the object after
      `Object.assign`. */
    method Update(id: int, body: Object, categories: map<int, Categories.Category>) returns (r: Result<Object, string>)
      requires Valid() && id in rows
      modifies this`rows
      ensures Valid()
      ensures r.Failure? <==> UpdateStatement(old(rows)[id], body, categories).Failure?
      ensures r.Failure? ==> r.error == UpdateStatement(old(rows)[id], body, categories).error && rows == old(rows)
      ensures r.Success? ==>
                && rows == old(rows)[id := old(rows)[id].(fields := Overwrite(old(rows)[id].fields, BudgetColumns, body))]
                && r.value == Assign(AsObject(old(rows)[id]), body)
    {
      var b := rows[id];
      var st := UpdateStatement(b, body, categories);
      if st.Failure? {
        return Failure(st.error);
      }
      rows := rows[id := b.(fields := Overwrite(b.fields, BudgetColumns, body))];
      r := Success(Assign(AsObject(b), body));
    }

    /** `budget.delete()`. */
    method Delete(id: int)
      requires Valid()
      modifies this`rows
      ensures Valid()
      ensures rows == old(rows) - {id}
    {
      rows := rows - {id};
    }
  }

  /** A successful `create` keeps every stored category reference usable by
      its owner, and so does an `update` that succeeds. */
  lemma CreateKeepsCategoriesUsable(rows: map<int, Budget>, categories: map<int, Categories.Category>, b: Budget)
    requires CategoriesUsable(rows, categories)
    requires Categories.UseCheck(categories, Column(b, "categoria_id"), b.usuarioId, CategoryMissingOnCreate).Success?
    ensures CategoriesUsable(rows[b.id := b], categories)
  {
  }

  lemma UpdateKeepsCategoriesUsable(rows: map<int, Budget>, categories: map<int, Categories.Category>, id: int, body: Object)
    requires CategoriesUsable(rows, categories) && id in rows
    requires UpdateStatement(rows[id], body, categories).Success?
    ensures CategoriesUsable(rows[id := rows[id].(fields := Overwrite(rows[id].fields, BudgetColumns, body))], categories)
  {
    var b := rows[id];
    var b' := b.(fields := Overwrite(b.fields, BudgetColumns, body));
    if "categoria_id" in body {
      assert Column(b', "categoria_id") == body["categoria_id"];
    } else {
      assert Column(b', "categoria_id") == Column(b, "categoria_id");
    }
  }

  // ---------------------------------------------------------------------
  // finders

  /** `findById`: the row with that id, or `null`. */
  function FindById(rows: map<int, Budget>, id: int): (r: Option<Budget>)
    ensures r.None? <==> id !in rows
    ensures r.Some? ==> r.value == rows[id]
  {
    Lookup(rows, id)
  }

  /** `findByUserId`: the user's rows, or `null` when there are none. */
  function FindByUserId(rows: map<int, Budget>, userId: int): (r: Option<seq<Budget>>)
    ensures r.None? <==> forall id :: id in rows ==> rows[id].usuarioId != userId
    ensures r.Some? ==> forall b :: b in r.value <==> b in rows.Values && b.usuarioId == userId
    ensures (if r.Some? then |r.value| else 0) == |set id | id in rows && rows[id].usuarioId == userId|
  {
    var keep := (b: Budget) => b.usuarioId == userId;
    assert KeysWhere(rows, keep) == set id | id in rows && rows[id].usuarioId == userId;
    Find(rows, keep)
  }

  /** `nombre LIKE '%text%'`: the name contains the text. */
  predicate NameContains(b: Budget, text: string)
  {
    Column(b, "nombre").Str? && Contains(Column(b, "nombre").s, text)
  }

  /** `findByName`: the user's budgets whose name contains `nombre`, in id
      order, or `null` when there are none. */
  function FindByName(rows: map<int, Budget>, userId: int, nombre: string): (r: Option<seq<Budget>>)
    ensures r.None? <==> forall id :: id in rows ==> !(rows[id].usuarioId == userId && NameContains(rows[id], nombre))
    ensures r.Some? ==> forall b :: b in r.value <==> b in rows.Values && b.usuarioId == userId && NameContains(b, nombre)
    ensures (if r.Some? then |r.value| else 0) == |set id | id in rows && rows[id].usuarioId == userId && NameContains(rows[id], nombre)|
  {
    var keep := (b: Budget) => b.usuarioId == userId && NameContains(b, nombre);
    assert KeysWhere(rows, keep) == set id | id in rows && rows[id].usuarioId == userId && NameContains(rows[id], nombre);
    Find(rows, keep)
  }

  /** In a table whose rows carry their own ids, `findByName` lists its
      matches by ascending id. */
  lemma FindByNameInIdOrder(rows: map<int, Budget>, userId: int, nombre: string)
    requires forall id :: id in rows ==> rows[id].id == id
    ensures FindByName(rows, userId, nombre).Some? ==>
              forall i, j :: 0 <= i < j < |FindByName(rows, userId, nombre).value| ==>
                FindByName(rows, userId, nombre).value[i].id < FindByName(rows, userId, nombre).value[j].id
  {
    SelectInKeyOrder(rows, (b: Budget) => b.usuarioId == userId && NameContains(b, nombre), (b: Budget) => b.id);
  }

  /** The number MySQL compares a stored `estado` with: booleans are 1 and
      0, a text is its leading digits (0 when there are none); `NULL`
      matches nothing. */
  function EstadoNumber(v: Value): Option<int>
  {
    match v
    case Null => None
    case Bool(b) => Some(if b then 1 else 0)
    case Num(n) => Some(n)
    case Str(s) => Some(DigitsValue(LeadingDigits(s)))
  }

  /** `findByState`: the user's rows whose `estado` equals `estado`, or
      `null`. */
  function FindByState(rows: map<int, Budget>, userId: int, estado: int): (r: Option<seq<Budget>>)
    ensures r.None? <==> forall id :: id in rows ==> !(rows[id].usuarioId == userId && EstadoNumber(Column(rows[id], "estado")) == Some(estado))
    ensures r.Some? ==> forall b :: b in r.value <==>
              b in rows.Values && b.usuarioId == userId && EstadoNumber(Column(b, "estado")) == Some(estado)
    ensures (if r.Some? then |r.value| else 0) == |set id | id in rows && rows[id].usuarioId == userId && EstadoNumber(Column(rows[id], "estado")) == Some(estado)|
  {
    var keep := (b: Budget) => b.usuarioId == userId && EstadoNumber(Column(b, "estado")) == Some(estado);
    assert KeysWhere(rows, keep) == set id | id in rows && rows[id].usuarioId == userId && EstadoNumber(Column(rows[id], "estado")) == Some(estado);
    Find(rows, keep)
  }
}
