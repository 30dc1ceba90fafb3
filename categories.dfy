/** The `categories` table: who may use a category, the sparse `update`
    that refuses default categories, `delete`, `canDelete` and the two
    finders that list a user's categories. */
module Categories {
  import opened Wrappers
  import opened Json
  import opened Tables
  import opened Sorting
  import opened UpdateBuilder
  import opened Text

  /** A row of `categories`. `usuarioId` is `None` for a `NULL` owner;
      `fields` holds `nombre`, `descripcion`, `color` and `icon`. */
  datatype Category = Category(id: int, usuarioId: Option<int>, isDefault: bool, tipo: Value, fields: Object)

  /** The columns `update` may write, in the order it tests them; `tipo`
      is not among them. */
  const CategoryColumns: seq<string> := ["nombre", "descripcion", "color", "icon"]

  const CannotModifyDefault := "No puedes modificar categorías predeterminadas"
  const CannotDeleteDefault := "No puedes eliminar categorias predeterminadas"

  /** The rule every handler applies before using or changing a category:
      its owner is `NULL` or the caller. */
  predicate Usable(c: Category, userId: int)
  {
    c.usuarioId.None? || c.usuarioId.value == userId
  }

  /** The filter of `getAvalibleForUser` and `findByUserAndType`:
      `is_default = true OR usuario_id = ?`. */
  predicate Visible(c: Category, userId: int)
  {
    c.isDefault || c.usuarioId == Some(userId)
  }

  /** Seeded data in which exactly the default categories have no owner
      (the only rows `create` adds are owned and not default). */
  predicate DefaultsUnowned(rows: map<int, Category>)
  {
    forall id :: id in rows ==> (rows[id].isDefault <==> rows[id].usuarioId.None?)
  }

  /** Where defaults are exactly the unowned rows, the finders' filter and
      the handlers' rule agree; without that, a default row owned by someone
      else is listed but not usable, and an unowned custom row is usable but
      not listed. */
  lemma VisibleIsUsable(rows: map<int, Category>, userId: int)
    ensures DefaultsUnowned(rows) ==> forall id :: id in rows ==> (Visible(rows[id], userId) <==> Usable(rows[id], userId))
    ensures var c := Category(1, Some(userId + 1), true, Null, map[]);
            Visible(c, userId) && !Usable(c, userId)
    ensures var c := Category(1, None, false, Null, map[]);
            Usable(c, userId) && !Visible(c, userId)
  {
  }

  /** `canDelete`: never for a default category; otherwise only when the
      count of its transactions is exactly 0; a failed count reads as false. */
  function CanDelete(c: Category, transactionCount: Result<int, string>): (ok: bool)
    ensures ok <==> !c.isDefault && transactionCount == Success(0)
    ensures c.isDefault ==> !ok
    ensures transactionCount.Failure? ==> !ok
  {
    if c.isDefault then false
    else match transactionCount
      case Failure(_) => false
      case Success(count) => count == 0
  }

  /** The in-memory `Category` object built from a row. */
  function AsObject(c: Category): Object
  {
    c.fields + map["id" := Num(c.id), "tipo" := c.tipo, "is_default" := Bool(c.isDefault),
                   "usuario_id" := match c.usuarioId case None => Null case Some(u) => Num(u)]
  }

  /** The keys `toJSON` copies. */
  const CategoryJsonKeys: set<string> :=
    {"id", "nombre", "descripcion", "tipo", "color", "icon", "usuario_id", "is_default", "created_at"}

  /** `toJSON`: the object's own keys among `CategoryJsonKeys`. */
  function ToJson(obj: Object): (r: Object)
    ensures r.Keys == obj.Keys * CategoryJsonKeys
    ensures forall k :: k in r ==> r[k] == obj[k]
  {
    Project(obj, CategoryJsonKeys)
  }

  /** The statement `update` sends, or what it throws: the default check
      comes before any field is looked at, and `tipo` is never written. */
  function UpdateStatement(c: Category, body: Object): (r: Result<Statement, string>)
    ensures c.isDefault ==> r == Failure(CannotModifyDefault)
    ensures !c.isDefault ==> (r.Failure? <==> forall col :: col in CategoryColumns ==> col !in body)
    ensures !c.isDefault && r.Failure? ==> r.error == NoFields
    ensures r.Success? ==> Clause("tipo") !in r.value.fields && Clause("usuario_id") !in r.value.fields
                           && Clause("is_default") !in r.value.fields
    ensures r.Success? ==> r == Build(CategoryColumns, body, Num(c.id))
  {
    if c.isDefault then Failure(CannotModifyDefault)
    else
      var st := Build(CategoryColumns, body, Num(c.id));
      BuildFails(CategoryColumns, body, Num(c.id));
      if st.Success? then
        NeverWritten(CategoryColumns, body, Num(c.id), "tipo");
        NeverWritten(CategoryColumns, body, Num(c.id), "usuario_id");
        NeverWritten(CategoryColumns, body, Num(c.id), "is_default");
        st
      else st
  }

  /** The `categories` table. */
  class CategoryStore {
    var rows: map<int, Category>
    var nextId: int

    ghost predicate Valid()
      reads this
    {
      nextId >= 1 && forall id :: id in rows ==> rows[id].id == id && id < nextId
    }

    constructor (seeded: map<int, Category>, next: int)
      requires next >= 1 && forall id :: id in seeded ==> seeded[id].id == id && id < next
      ensures Valid() && rows == seeded && nextId == next
    {
      rows := seeded;
      nextId := next;
    }

    /** `Category.create`: a new owned, non-default row. */
    method Create(nombre: Value, descripcion: Value, tipo: Value, color: Value, icon: Value, usuarioId: int)
      returns (c: Category)
      requires Valid()
      modifies this
      ensures Valid()
      ensures c.id !in old(rows) && c.usuarioId == Some(usuarioId) && !c.isDefault && c.tipo == tipo
      ensures c.fields == map["nombre" := nombre, "descripcion" := descripcion, "color" := color, "icon" := icon]
      ensures rows == old(rows)[c.id := c]
    {
      c := Category(nextId, Some(usuarioId), false, tipo,
                    map["nombre" := nombre, "descripcion" := descripcion, "color" := color, "icon" := icon]);
      rows := rows[nextId := c];
      nextId := nextId + 1;
    }

    /** `category.update(updateData)`: throws for a default category or a
      body with no updatable key; otherwise writes the defined columns and
      answers the object after `Object.assign`. */
    method Update(id: int, body: Object) returns (r: Result<Object, string>)
      requires Valid() && id in rows
      modifies this`rows
      ensures Valid()
      ensures r.Failure? <==> UpdateStatement(old(rows)[id], body).Failure?
      ensures r.Failure? ==> r.error == UpdateStatement(old(rows)[id], body).error && rows == old(rows)
      ensures r.Success? ==>
                && rows == old(rows)[id := old(rows)[id].(fields := Overwrite(old(rows)[id].fields, CategoryColumns, body))]
                && r.value == Assign(AsObject(old(rows)[id]), body)
    {
      var c := rows[id];
      if c.isDefault {
        return Failure(CannotModifyDefault);
      }
      var st := BuildUpdate(CategoryColumns, body, Num(id));
      if st.Failure? {
        return Failure(st.error);
      }
      rows := rows[id := c.(fields := Overwrite(c.fields, CategoryColumns, body))];
      r := Success(Assign(AsObject(c), body));
    }

    /** `category.delete()`: throws for a default category, otherwise
      removes the row. `transactionCount` is what its `SELECT COUNT(*)`
      counts; the row that query returns is keyed `COUNT(*)`, so the guard
      reading `count` never refuses (see `CountGuardNeverFires`). */
    method Delete(id: int, transactionCount: int) returns (r: Result<bool, string>)
      requires Valid() && id in rows
      modifies this`rows
      ensures Valid()
      ensures old(rows)[id].isDefault ==> r == Failure(CannotDeleteDefault) && rows == old(rows)
      ensures !old(rows)[id].isDefault ==> r == Success(true) && rows == old(rows) - {id}
    {
      if rows[id].isDefault {
        return Failure(CannotDeleteDefault);
      }
      var countRow: Object := map["COUNT(*)" := Num(transactionCount)];
      if Refuses(countRow) {
        return Failure("No se puede eliminar la categoria. Tiene " + CountText(countRow) + " transacciones asociadas.");
      }
      rows := rows - {id};
      r := Success(true);
    }
  }

  /** The guard of `delete`: the row's `count` value is above 0. */
  predicate Refuses(countRow: Object)
  {
    "count" in countRow && countRow["count"].Num? && countRow["count"].n > 0
  }

  /** `${rows[0].count}`: the row's number, or `undefined` when it has no
      numeric `count`. */
  function CountText(countRow: Object): string
  {
    if "count" in countRow && countRow["count"].Num? then NumberToString(Int(countRow["count"].n)) else "undefined"
  }

  /** The un-aliased `COUNT(*)` column is not `count`, so `delete` removes a
      custom category whatever the number of its transactions. */
  lemma CountGuardNeverFires(transactionCount: int)
    ensures !Refuses(map["COUNT(*)" := Num(transactionCount)])
    ensures transactionCount > 0 ==> Refuses(map["count" := Num(transactionCount)])
  {
    assert "COUNT(*)"[0] != "count"[0];
  }

  /** `findById`: the row with that id, or `null`. */
  function FindById(rows: map<int, Category>, id: int): (r: Option<Category>)
    ensures r.None? <==> id !in rows
    ensures r.Some? ==> r.value == rows[id]
  {
    Lookup(rows, id)
  }

  const NotYoursToUse := "No tienes permisos para usar esta categoria."

  /** The id `findById` looks up for a request value: a number, or a text
      of decimal digits as MySQL converts it; anything else finds no row. */
  function CategoryKey(v: Value): Option<int>
  {
    match v
    case Num(n) => Some(n)
    case Str(s) => if s != "" && AllDigits(s) then Some(DigitsValue(s)) else None
    case _ => None
  }

  /** The check a transaction or budget runs before it refers to a
      category: the category exists (else `missing`, whose wording differs
      between callers), then its owner is `NULL` or `userId`. */
  function UseCheck(rows: map<int, Category>, categoriaId: Value, userId: int, missing: string): (r: Result<Category, string>)
    ensures r.Success? <==> CategoryKey(categoriaId).Some? && CategoryKey(categoriaId).value in rows
                            && Usable(rows[CategoryKey(categoriaId).value], userId)
    ensures (CategoryKey(categoriaId).None? || CategoryKey(categoriaId).value !in rows) ==> r == Failure(missing)
    ensures r.Failure? ==> r.error in {missing, NotYoursToUse}
    ensures r.Success? ==> r.value == rows[CategoryKey(categoriaId).value]
  {
    match CategoryKey(categoriaId)
    case None => Failure(missing)
    case Some(key) =>
      match FindById(rows, key)
      case None => Failure(missing)
      case Some(c) =>
        if c.usuarioId.Some? && c.usuarioId.value != userId then Failure(NotYoursToUse)
        else Success(c)
  }

  /** `getAvalibleForUser`: the default categories and the user's own, or
      `null` when there are none. */
  function GetAvailableForUser(rows: map<int, Category>, userId: int): (r: Option<seq<Category>>)
    ensures r.None? <==> forall id :: id in rows ==> !Visible(rows[id], userId)
    ensures r.Some? ==> forall c :: c in r.value <==> c in rows.Values && Visible(c, userId)
  {
    Find(rows, (c: Category) => Visible(c, userId))
  }

  /** The `nombre` column (`NULL` when absent). */
  function NombreOf(c: Category): Value
  {
    if "nombre" in c.fields then c.fields["nombre"] else Null
  }

  /** `is_default = true OR usuario_id = ?` and `tipo = ?`. */
  predicate VisibleOfType(c: Category, userId: int, tipo: Value)
  {
    Visible(c, userId) && c.tipo == tipo
  }

  function VisibleOfTypeFor(userId: int, tipo: Value): Category -> bool
  {
    (c: Category) => VisibleOfType(c, userId, tipo)
  }

  /** `findByUserAndType`: the visible categories of type `tipo`, ordered
      by name ascending; an empty list, never `null`. */
  function FindByUserAndType(rows: map<int, Category>, userId: int, tipo: Value): (r: seq<Category>)
    ensures forall c :: c in r <==> (exists id :: id in rows && rows[id] == c) && VisibleOfType(c, userId, tipo)
    ensures Sorted(r, NombreOf, false)
    ensures multiset(r) == multiset(Select(rows, VisibleOfTypeFor(userId, tipo)))
  {
    VisibleOfTypeMembers(rows, userId, tipo);
    SortBy(Select(rows, VisibleOfTypeFor(userId, tipo)), NombreOf, false)
  }

  /** The sorted selection holds exactly the categories the filter keeps. */
  lemma VisibleOfTypeMembers(rows: map<int, Category>, userId: int, tipo: Value)
    ensures forall c :: c in SortBy(Select(rows, VisibleOfTypeFor(userId, tipo)), NombreOf, false) <==>
                          (exists id :: id in rows && rows[id] == c) && VisibleOfType(c, userId, tipo)
  {
    var keep := VisibleOfTypeFor(userId, tipo);
    var s := Select(rows, keep);
    var sorted := SortBy(s, NombreOf, false);
    SameMembers(sorted, s);
    forall c
      ensures c in sorted <==> (exists id :: id in rows && rows[id] == c) && VisibleOfType(c, userId, tipo)
    {
      assert c in sorted <==> c in s;
      assert keep(c) == VisibleOfType(c, userId, tipo);
    }
  }

  /** A category its owner has just created is among the ones
      `findByUserAndType` lists for that owner and its type. */
  lemma CreatedIsListed(rows: map<int, Category>, c: Category, userId: int)
    requires c.usuarioId == Some(userId)
    ensures c in FindByUserAndType(rows[c.id := c], userId, c.tipo)
    ensures GetAvailableForUser(rows[c.id := c], userId).Some?
  {
    var after := rows[c.id := c];
    assert c.id in after && after[c.id] == c && VisibleOfType(c, userId, c.tipo);
  }

  /** Two lists with the same multiset hold the same elements. */
  lemma SameMembers<T>(a: seq<T>, b: seq<T>)
    requires multiset(a) == multiset(b)
    ensures forall x :: x in a <==> x in b
  {
    forall x
      ensures x in a <==> x in b
    {
      assert x in a <==> x in multiset(a);
      assert x in b <==> x in multiset(b);
    }
  }
}
