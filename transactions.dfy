/** The `transactions` table: the category rule `create` and `update`
    enforce, the sparse `update`, the finders (including the date-range one)
    and the income/expense totals. */
module Transactions {
  import opened Wrappers
  import opened Json
  import opened Text
  import opened Tables
  import opened Sorting
  import opened UpdateBuilder
  import Categories
  import DateValidator

  /** A row of `transactions`: `fields` holds `tipo`, `descripcion`,
      `monto`, `fecha` and `categoria_id`. */
  datatype Transaction = Transaction(id: int, usuarioId: int, fields: Object)

  /** The columns `update` may write, in the order it tests them. */
  const TransactionColumns: seq<string> := ["tipo", "descripcion", "monto", "fecha", "categoria_id"]

  const CategoryMissing := "La categoría especificada no existe"
  const CategoryNotYours := Categories.NotYoursToUse
  const DatesRequired := "Las fechas de inicio y fin son requeridas"
  const RangeReversed := "La fecha de inicio no puede ser mayor que la fecha de fin"
  const BadType := "El tipo debe ser \"ingreso\" o \"gasto\""
  const MonthlyParamsRequired := "Los parámetros usuario_id, año y mes son requeridos"
  const MonthOutOfRange := "El mes debe estar entre 1 y 12"

  /** The value of a column (`NULL` when absent). */
  function Column(t: Transaction, name: string): Value
  {
    if name in t.fields then t.fields[name] else Null
  }

  /** The check `create` runs, and `update` runs when the body defines
      `categoria_id`. */
  function CategoryCheck(categories: map<int, Categories.Category>, categoriaId: Value, userId: int): (r: Result<Categories.Category, string>)
    ensures r.Success? <==> Categories.CategoryKey(categoriaId).Some? && Categories.CategoryKey(categoriaId).value in categories
                            && Categories.Usable(categories[Categories.CategoryKey(categoriaId).value], userId)
    ensures (Categories.CategoryKey(categoriaId).None? || Categories.CategoryKey(categoriaId).value !in categories) ==> r == Failure(CategoryMissing)
    ensures r.Failure? ==> r.error in {CategoryMissing, CategoryNotYours}
  {
    Categories.UseCheck(categories, categoriaId, userId, CategoryMissing)
  }

  /** The statement `update` sends, or what it throws. The category rule is
      checked only when the body defines `categoria_id`, and a failure of it
      wins over an otherwise empty update. */
  function UpdateStatement(t: Transaction, body: Object, categories: map<int, Categories.Category>): (r: Result<Statement, string>)
    ensures "categoria_id" in body && CategoryCheck(categories, body["categoria_id"], t.usuarioId).Failure? ==>
              r == Failure(CategoryCheck(categories, body["categoria_id"], t.usuarioId).error)
    ensures r.Success? ==> r == Build(TransactionColumns, body, Num(t.id))
    ensures r.Success? ==> "categoria_id" in body ==> CategoryCheck(categories, body["categoria_id"], t.usuarioId).Success?
    ensures r.Success? ==> Clause("usuario_id") !in r.value.fields
    ensures r.Failure? && ("categoria_id" !in body || CategoryCheck(categories, body["categoria_id"], t.usuarioId).Success?) ==>
              r.error == NoFields && forall c :: c in TransactionColumns ==> c !in body
  {
    if "categoria_id" in body && CategoryCheck(categories, body["categoria_id"], t.usuarioId).Failure? then
      Failure(CategoryCheck(categories, body["categoria_id"], t.usuarioId).error)
    else
      var st := Build(TransactionColumns, body, Num(t.id));
      BuildFails(TransactionColumns, body, Num(t.id));
      if st.Success? then
        NeverWritten(TransactionColumns, body, Num(t.id), "usuario_id");
        st
      else st
  }

  /** The in-memory `Transaction` object built from a row. */
  function AsObject(t: Transaction): Object
  {
    t.fields + map["id" := Num(t.id), "usuario_id" := Num(t.usuarioId)]
  }

  /** The keys `toJSON` copies. */
  const TransactionJsonKeys: set<string> :=
    {"id", "tipo", "descripcion", "monto", "fecha", "categoria_id", "usuario_id", "created_at", "updated_at"}

  /** `toJSON`: the object's own keys among `TransactionJsonKeys`. */
  function ToJson(obj: Object): (r: Object)
    ensures r.Keys == obj.Keys * TransactionJsonKeys
    ensures forall k :: k in r ==> r[k] == obj[k]
  {
    Project(obj, TransactionJsonKeys)
  }

  /** Every row's category, when it names one, is usable by the row's user. */
  ghost predicate CategoriesUsable(rows: map<int, Transaction>, categories: map<int, Categories.Category>)
  {
    forall id :: id in rows ==>
      Categories.CategoryKey(Column(rows[id], "categoria_id")).Some? ==>
        Categories.CategoryKey(Column(rows[id], "categoria_id")).value in categories &&
        Categories.Usable(categories[Categories.CategoryKey(Column(rows[id], "categoria_id")).value], rows[id].usuarioId)
  }

  /** The `transactions` table. */
  class TransactionStore {
    var rows: map<int, Transaction>
    var nextId: int

    ghost predicate Valid()
      reads this
    {
      nextId >= 1 && forall id :: id in rows ==> rows[id].id == id && id < nextId
    }

    constructor ()
      ensures Valid() && rows == map[] && nextId == 1
    {
      rows := map[];
      nextId := 1;
    }

    /** `Transaction.create`: refuses a missing category or someone else's,
      otherwise inserts the row (with `parseFloat(monto)` and
      `parseInt(categoria_id)`) under a fresh id. */
    method Create(categories: map<int, Categories.Category>, tipo: Value, descripcion: Value, monto: Value, fecha: Value,
                  categoriaId: Value, userId: int) returns (r: Result<Transaction, string>)
      requires Valid()
      modifies this
      ensures Valid()
      ensures r.Failure? <==> CategoryCheck(categories, categoriaId, userId).Failure?
      ensures r.Failure? ==> r.error == CategoryCheck(categories, categoriaId, userId).error && rows == old(rows)
      ensures r.Success? ==>
                && r.value.id !in old(rows) && (forall id :: id in old(rows) ==> id < r.value.id)
                && r.value.usuarioId == userId
                && r.value.fields == map["tipo" := tipo, "descripcion" := descripcion, "monto" := ParseFloat(monto), "fecha" := fecha,
                                         "categoria_id" := Num(Categories.CategoryKey(categoriaId).value)]
                && rows == old(rows)[r.value.id := r.value]
    {
      var check := CategoryCheck(categories, categoriaId, userId);
      if check.Failure? {
        return Failure(check.error);
      }
      var t := Transaction(nextId, userId, map["tipo" := tipo, "descripcion" := descripcion, "monto" := ParseFloat(monto),
                                              "fecha" := fecha, "categoria_id" := Num(Categories.CategoryKey(categoriaId).value)]);
      rows := rows[nextId := t];
      nextId := nextId + 1;
      r := Success(t);
    }

    /** `transaction.update(updateData)`: throws what `UpdateStatement`
      throws, otherwise writes the defined columns and answers the object
      after `Object.assign`. */
    method Update(id: int, body: Object, categories: map<int, Categories.Category>) returns (r: Result<Object, string>)
      requires Valid() && id in rows
      modifies this`rows
      ensures Valid()
      ensures r.Failure? <==> UpdateStatement(old(rows)[id], body, categories).Failure?
      ensures r.Failure? ==> r.error == UpdateStatement(old(rows)[id], body, categories).error && rows == old(rows)
      ensures r.Success? ==>
                && rows == old(rows)[id := old(rows)[id].(fields := Overwrite(old(rows)[id].fields, TransactionColumns, body))]
                && r.value == Assign(AsObject(old(rows)[id]), body)
    {
      var t := rows[id];
      var st := UpdateStatement(t, body, categories);
      if st.Failure? {
        return Failure(st.error);
      }
      rows := rows[id := t.(fields := Overwrite(t.fields, TransactionColumns, body))];
      r := Success(Assign(AsObject(t), body));
    }

    /** `transaction.delete()`. */
    method Delete(id: int)
      requires Valid()
      modifies this`rows
      ensures Valid()
      ensures rows == old(rows) - {id}
    {
      rows := rows - {id};
    }
  }

  /** `SELECT COUNT(*) FROM transactions WHERE categoria_id = ?`: the
      rows that refer to the category. */
  function CategoryUseCount(rows: map<int, Transaction>, categoryId: int): nat
  {
    |set k | k in rows && Column(rows[k], "categoria_id") == Num(categoryId)|
  }

  /** With the count read from the table, `canDelete` holds exactly for a
      custom category that no transaction refers to. */
  lemma CanDeleteOfTable(rows: map<int, Transaction>, c: Categories.Category)
    ensures Categories.CanDelete(c, Success(CategoryUseCount(rows, c.id))) <==>
              !c.isDefault && forall k :: k in rows ==> Column(rows[k], "categoria_id") != Num(c.id)
  {
    var using := set k | k in rows && Column(rows[k], "categoria_id") == Num(c.id);
    if k :| k in rows && Column(rows[k], "categoria_id") == Num(c.id) {
      assert k in using;
    } else {
      assert forall k :: k !in using;
    }
  }

  /** `create` keeps every stored category reference usable by its owner,
      and so does an `update` that succeeds. */
  lemma CreateKeepsCategoriesUsable(rows: map<int, Transaction>, categories: map<int, Categories.Category>, t: Transaction)
    requires CategoriesUsable(rows, categories)
    requires CategoryCheck(categories, Column(t, "categoria_id"), t.usuarioId).Success?
    ensures CategoriesUsable(rows[t.id := t], categories)
  {
  }

  lemma UpdateKeepsCategoriesUsable(rows: map<int, Transaction>, categories: map<int, Categories.Category>, id: int, body: Object)
    requires CategoriesUsable(rows, categories) && id in rows
    requires UpdateStatement(rows[id], body, categories).Success?
    ensures CategoriesUsable(rows[id := rows[id].(fields := Overwrite(rows[id].fields, TransactionColumns, body))], categories)
  {
    var t := rows[id];
    var t' := t.(fields := Overwrite(t.fields, TransactionColumns, body));
    if "categoria_id" in body {
      assert Column(t', "categoria_id") == body["categoria_id"];
    } else {
      assert Column(t', "categoria_id") == Column(t, "categoria_id");
    }
  }

  // ---------------------------------------------------------------------
  // finders

  /** `findById`: the row with that id, or `null`. */
  function FindById(rows: map<int, Transaction>, id: int): (r: Option<Transaction>)
    ensures r.None? <==> id !in rows
    ensures r.Some? ==> r.value == rows[id]
  {
    Lookup(rows, id)
  }

  /** `findByUserId`: the user's rows, or `null` when there are none. */
  function FindByUserId(rows: map<int, Transaction>, userId: int): (r: Option<seq<Transaction>>)
    ensures r.None? <==> forall id :: id in rows ==> rows[id].usuarioId != userId
    ensures r.Some? ==> forall t :: t in r.value <==> t in rows.Values && t.usuarioId == userId
    ensures (if r.Some? then |r.value| else 0) == |set id | id in rows && rows[id].usuarioId == userId|
  {
    var keep := (t: Transaction) => t.usuarioId == userId;
    assert KeysWhere(rows, keep) == set id | id in rows && rows[id].usuarioId == userId;
    Find(rows, keep)
  }

  /** The user's rows whose `column` holds `v`, or `null`: the query
      `findByUserAndType` and `findByUserAndCategory` share. */
  function FindByUserAndColumn(rows: map<int, Transaction>, userId: int, column: string, v: Value): (r: Option<seq<Transaction>>)
    ensures r.None? <==> forall id :: id in rows ==> !(rows[id].usuarioId == userId && Column(rows[id], column) == v)
    ensures r.Some? ==> forall t :: t in r.value <==> t in rows.Values && t.usuarioId == userId && Column(t, column) == v
    ensures (if r.Some? then |r.value| else 0) == |set id | id in rows && rows[id].usuarioId == userId && Column(rows[id], column) == v|
  {
    var keep := (t: Transaction) => t.usuarioId == userId && Column(t, column) == v;
    assert KeysWhere(rows, keep) == set id | id in rows && rows[id].usuarioId == userId && Column(rows[id], column) == v;
    Find(rows, keep)
  }

  /** `findByUserAndType`: the user's rows of type `tipo`, or `null`. */
  function FindByUserAndType(rows: map<int, Transaction>, userId: int, tipo: Value): (r: Option<seq<Transaction>>)
    ensures r.None? <==> forall id :: id in rows ==> !(rows[id].usuarioId == userId && Column(rows[id], "tipo") == tipo)
    ensures r.Some? ==> forall t :: t in r.value <==> t in rows.Values && t.usuarioId == userId && Column(t, "tipo") == tipo
    ensures (if r.Some? then |r.value| else 0) == |set id | id in rows && rows[id].usuarioId == userId && Column(rows[id], "tipo") == tipo|
  {
    FindByUserAndColumn(rows, userId, "tipo", tipo)
  }

  /** `findByUserAndCategory`: the user's rows of that category, or `null`. */
  function FindByUserAndCategory(rows: map<int, Transaction>, userId: int, categoriaId: Value): (r: Option<seq<Transaction>>)
    ensures r.None? <==> forall id :: id in rows ==> !(rows[id].usuarioId == userId && Column(rows[id], "categoria_id") == categoriaId)
    ensures r.Some? ==> forall t :: t in r.value <==> t in rows.Values && t.usuarioId == userId && Column(t, "categoria_id") == categoriaId
    ensures (if r.Some? then |r.value| else 0) == |set id | id in rows && rows[id].usuarioId == userId && Column(rows[id], "categoria_id") == categoriaId|
  {
    FindByUserAndColumn(rows, userId, "categoria_id", categoriaId)
  }

  /** The day a row's `fecha` names. */
  function FechaOf(t: Transaction): DateValidator.CalendarDay
  {
    match Column(t, "fecha")
    case Str(s) => DateValidator.DayOf(s)
    case _ => DateValidator.NoDay
  }

  /** The sort key of `ORDER BY fecha`: one number per day, increasing with
      the date for months 1..12 and days 1..31; `NULL` for a row without a
      date. */
  function FechaKey(t: Transaction): Value
  {
    match FechaOf(t)
    case NoDay => Null
    case Day(y, m, d) => Num(y * 10000 + m * 100 + d)
  }

  /** `fecha >= inicio AND fecha <= fin`, days compared as dates. */
  predicate InRange(fecha: DateValidator.CalendarDay, inicio: DateValidator.CalendarDay, fin: DateValidator.CalendarDay)
  {
    fecha.Day? && inicio.Day? && fin.Day? &&
    !DateValidator.DayBefore(fecha, inicio) && !DateValidator.DayBefore(fin, fecha)
  }

  /** The user's row dated within `[inicio, fin]`. */
  predicate Dated(t: Transaction, userId: int, inicio: string, fin: string)
  {
    t.usuarioId == userId && InRange(FechaOf(t), DateValidator.DayOf(inicio), DateValidator.DayOf(fin))
  }

  function DatedIn(userId: int, inicio: string, fin: string): Transaction -> bool
  {
    (t: Transaction) => Dated(t, userId, inicio, fin)
  }

  /** The user's rows dated within `[inicio, fin]`, newest first. */
  function DatedRows(rows: map<int, Transaction>, userId: int, inicio: string, fin: string): (r: seq<Transaction>)
    ensures forall t :: t in r <==> (exists id :: id in rows && rows[id] == t) && Dated(t, userId, inicio, fin)
    ensures Sorted(r, FechaKey, true)
    ensures |r| == |set id | id in rows && Dated(rows[id], userId, inicio, fin)|
  {
    DatedRowsMembers(rows, userId, inicio, fin);
    DatedRowsCount(rows, userId, inicio, fin);
    SortBy(Select(rows, DatedIn(userId, inicio, fin)), FechaKey, true)
  }

  /** Sorting keeps the number of selected rows, one per matching id. */
  lemma DatedRowsCount(rows: map<int, Transaction>, userId: int, inicio: string, fin: string)
    ensures |SortBy(Select(rows, DatedIn(userId, inicio, fin)), FechaKey, true)| ==
            |set id | id in rows && Dated(rows[id], userId, inicio, fin)|
  {
    var keep := DatedIn(userId, inicio, fin);
    var s := Select(rows, keep);
    var sorted := SortBy(s, FechaKey, true);
    assert |sorted| == |s| by {
      assert |sorted| == |multiset(sorted)| == |multiset(s)| == |s|;
    }
    DatedKeys(rows, userId, inicio, fin);
  }

  /** The keys the date filter keeps are the dated rows' keys. */
  lemma DatedKeys(rows: map<int, Transaction>, userId: int, inicio: string, fin: string)
    ensures KeysWhere(rows, DatedIn(userId, inicio, fin)) == set id | id in rows && Dated(rows[id], userId, inicio, fin)
  {
    var keep := DatedIn(userId, inicio, fin);
    forall id | id in rows
      ensures keep(rows[id]) == Dated(rows[id], userId, inicio, fin)
    {
    }
  }

  /** The sorted selection holds exactly the rows the filter keeps. */
  lemma DatedRowsMembers(rows: map<int, Transaction>, userId: int, inicio: string, fin: string)
    ensures forall t :: t in SortBy(Select(rows, DatedIn(userId, inicio, fin)), FechaKey, true) <==>
                          (exists id :: id in rows && rows[id] == t) && Dated(t, userId, inicio, fin)
  {
    var keep := DatedIn(userId, inicio, fin);
    var s := Select(rows, keep);
    var sorted := SortBy(s, FechaKey, true);
    Categories.SameMembers(sorted, s);
    forall t
      ensures t in sorted <==> (exists id :: id in rows && rows[id] == t) && Dated(t, userId, inicio, fin)
    {
      assert t in sorted <==> t in s;
      assert keep(t) == Dated(t, userId, inicio, fin);
    }
  }

  /** `findByDateRange`: both bounds are required and the start may not be
      after the end; then the user's rows dated within the bounds, both
      included, newest first, or `null` when there are none. */
  function FindByDateRange(rows: map<int, Transaction>, userId: int, inicio: string, fin: string): (r: Result<Option<seq<Transaction>>, string>)
    ensures inicio == "" || fin == "" ==> r == Failure(DatesRequired)
    ensures inicio != "" && fin != "" && DateValidator.StartAfter(inicio, fin) ==> r == Failure(RangeReversed)
    ensures r.Success? <==> inicio != "" && fin != "" && !DateValidator.StartAfter(inicio, fin)
    ensures r.Success? ==> (r.value.None? <==> forall id :: id in rows ==> !Dated(rows[id], userId, inicio, fin))
    ensures r.Success? && r.value.Some? ==>
              && (forall t :: t in r.value.value <==> (exists id :: id in rows && rows[id] == t) && Dated(t, userId, inicio, fin))
              && Sorted(r.value.value, FechaKey, true)
              && |r.value.value| == |set id | id in rows && Dated(rows[id], userId, inicio, fin)|
  {
    if inicio == "" || fin == "" then Failure(DatesRequired)
    else if DateValidator.StartAfter(inicio, fin) then Failure(RangeReversed)
    else
      var found := DatedRows(rows, userId, inicio, fin);
      assert forall id :: id in rows && Dated(rows[id], userId, inicio, fin) ==> rows[id] in found;
      if found == [] then Success(None)
      else
        assert found[0] in found;
        Success(Some(found))
  }

  /** A range `validarRangoFechas` accepts passes `findByDateRange`'s own
      guards, except for empty texts: `validarFecha("")` finds no number
      to reject and answers valid, while `findByDateRange` refuses it. */
  lemma ValidatedRangeIsSearchable(inicio: string, fin: string, currentYear: int, rows: map<int, Transaction>, userId: int)
    ensures DateValidator.ValidarRangoFechas(inicio, fin, currentYear).valido && inicio != "" && fin != ""
            ==> FindByDateRange(rows, userId, inicio, fin).Success?
    ensures DateValidator.ValidarRangoFechas("", "", currentYear).valido
    ensures FindByDateRange(rows, userId, "", "") == Failure(DatesRequired)
  {
    DateValidator.RangeChecks(inicio, fin, currentYear);
    EmptyDateIsValid(currentYear);
  }

  lemma EmptyDateIsValid(currentYear: int)
    ensures DateValidator.ValidarFecha("", false, currentYear).valido
    ensures DateValidator.ValidarFecha("", true, currentYear).valido
    ensures !DateValidator.StartAfter("", "")
  {
    assert Split("", '-') == [""];
    assert DateValidator.Parts("") == [""];
  }

  // ---------------------------------------------------------------------
  // totals

  /** `SUM(monto)` over a list of rows; `COALESCE(…, 0)` makes the sum of
      none 0. */
  function SumMonto(s: seq<Transaction>): int
  {
    if s == [] then 0 else AmountOf(Column(s[0], "monto")) + SumMonto(s[1..])
  }

  /** The dates a total covers: all of them, or one month of one year. */
  datatype Period = AllTime | Month(year: int, month: int)

  predicate InPeriod(d: DateValidator.CalendarDay, p: Period)
  {
    p.AllTime? || (d.Day? && d.y == p.year && d.m == p.month)
  }

  /** `usuario_id = ? AND tipo = ?` (and, for a month, `YEAR(fecha) = ?
      AND MONTH(fecha) = ?`). */
  predicate Counts(t: Transaction, userId: int, tipo: string, p: Period)
  {
    t.usuarioId == userId && Column(t, "tipo") == Str(tipo) && InPeriod(FechaOf(t), p)
  }

  function Counting(userId: int, tipo: string, p: Period): Transaction -> bool
  {
    (t: Transaction) => Counts(t, userId, tipo, p)
  }

  /** The rows a total adds up. */
  function Matching(rows: map<int, Transaction>, userId: int, tipo: string, p: Period): (r: seq<Transaction>)
    ensures forall t :: t in r <==> (exists id :: id in rows && rows[id] == t) && Counts(t, userId, tipo, p)
  {
    Select(rows, Counting(userId, tipo, p))
  }

  /** `COALESCE(SUM(monto), 0)` over the rows a total adds up. */
  function TotalOf(rows: map<int, Transaction>, userId: int, tipo: string, p: Period): int
  {
    SumMonto(Matching(rows, userId, tipo, p))
  }

  datatype Totals = Totals(totalIngresos: int, totalGastos: int, balance: int)

  /** `getTotalByUser`: the sums of the user's income and expense amounts
      and their difference. */
  function GetTotalByUser(rows: map<int, Transaction>, userId: int): (r: Totals)
    ensures r.totalIngresos == TotalOf(rows, userId, "ingreso", AllTime)
    ensures r.totalGastos == TotalOf(rows, userId, "gasto", AllTime)
    ensures r.balance == r.totalIngresos - r.totalGastos
  {
    var ingresos := TotalOf(rows, userId, "ingreso", AllTime);
    var gastos := TotalOf(rows, userId, "gasto", AllTime);
    Totals(ingresos, gastos, ingresos - gastos)
  }

  datatype TypeTotal = TypeTotal(tipo: string, total: int)

  /** `getTotalByUserAndType`: only `ingreso` and `gasto` are accepted. */
  function GetTotalByUserAndType(rows: map<int, Transaction>, userId: int, tipo: string): (r: Result<TypeTotal, string>)
    ensures r.Failure? <==> tipo != "ingreso" && tipo != "gasto"
    ensures r.Failure? ==> r.error == BadType
    ensures r.Success? ==> r.value == TypeTotal(tipo, TotalOf(rows, userId, tipo, AllTime))
  {
    if tipo != "ingreso" && tipo != "gasto" then Failure(BadType)
    else Success(TypeTotal(tipo, TotalOf(rows, userId, tipo, AllTime)))
  }

  /** The two per-type totals and the overall balance agree. */
  lemma BalanceOfTypeTotals(rows: map<int, Transaction>, userId: int)
    ensures GetTotalByUserAndType(rows, userId, "ingreso").Success?
    ensures GetTotalByUserAndType(rows, userId, "gasto").Success?
    ensures GetTotalByUser(rows, userId).balance ==
            GetTotalByUserAndType(rows, userId, "ingreso").value.total - GetTotalByUserAndType(rows, userId, "gasto").value.total
  {
  }

  /** A user without rows has every total 0. */
  lemma TotalsWithoutRows(rows: map<int, Transaction>, userId: int)
    requires forall id :: id in rows ==> rows[id].usuarioId != userId
    ensures GetTotalByUser(rows, userId) == Totals(0, 0, 0)
  {
    var ingresos := Matching(rows, userId, "ingreso", AllTime);
    var gastos := Matching(rows, userId, "gasto", AllTime);
    assert Find(rows, Counting(userId, "ingreso", AllTime)).None?;
    assert Find(rows, Counting(userId, "gasto", AllTime)).None?;
  }

  lemma {:induction false} SumMontoAppend(a: seq<Transaction>, b: seq<Transaction>)
    ensures SumMonto(a + b) == SumMonto(a) + SumMonto(b)
    decreases |a|
  {
    if a != [] {
      assert (a + b)[1..] == a[1..] + b;
      SumMontoAppend(a[1..], b);
    } else {
      assert a + b == b;
    }
  }

  /** A newly created income raises the user's income total, and the
      balance, by its amount and leaves the expense total unchanged. */
  lemma CreatedIncomeRaisesBalance(rows: map<int, Transaction>, t: Transaction)
    requires forall id :: id in rows ==> id < t.id
    requires Column(t, "tipo") == Str("ingreso")
    ensures GetTotalByUser(rows[t.id := t], t.usuarioId).totalIngresos ==
            GetTotalByUser(rows, t.usuarioId).totalIngresos + AmountOf(Column(t, "monto"))
    ensures GetTotalByUser(rows[t.id := t], t.usuarioId).totalGastos == GetTotalByUser(rows, t.usuarioId).totalGastos
    ensures GetTotalByUser(rows[t.id := t], t.usuarioId).balance ==
            GetTotalByUser(rows, t.usuarioId).balance + AmountOf(Column(t, "monto"))
  {
    var u := t.usuarioId;
    var after := rows[t.id := t];
    SelectAfterInsert(rows, t.id, t, Counting(u, "ingreso", AllTime));
    SelectAfterInsert(rows, t.id, t, Counting(u, "gasto", AllTime));
    var ingresos := Matching(rows, u, "ingreso", AllTime);
    assert Matching(after, u, "ingreso", AllTime) == ingresos + [t];
    SumMontoAppend(ingresos, [t]);
    assert SumMonto([t]) == AmountOf(Column(t, "monto"));
    assert !Counting(u, "gasto", AllTime)(t);
    assert Matching(after, u, "gasto", AllTime) == Matching(rows, u, "gasto", AllTime) + [];
    assert Matching(rows, u, "gasto", AllTime) + [] == Matching(rows, u, "gasto", AllTime);
  }

  /** An income created from a request whose `monto` is the text of an
      integer raises the balance by that integer, as `parseFloat` reads it. */
  lemma CreatedTextIncomeRaisesBalance(rows: map<int, Transaction>, t: Transaction, n: int)
    requires forall id :: id in rows ==> id < t.id
    requires Column(t, "tipo") == Str("ingreso")
    requires Column(t, "monto") == ParseFloat(Str(NumberToString(Int(n))))
    ensures GetTotalByUser(rows[t.id := t], t.usuarioId).totalIngresos == GetTotalByUser(rows, t.usuarioId).totalIngresos + n
    ensures GetTotalByUser(rows[t.id := t], t.usuarioId).balance == GetTotalByUser(rows, t.usuarioId).balance + n
  {
    ParseFloatOfText(n);
    CreatedIncomeRaisesBalance(rows, t);
  }

  datatype MonthlyBalance = MonthlyBalance(anio: int, mes: int, totalIngresos: int, totalGastos: int, balance: int)

  /** `getMonthlyBalance`: user, year and month must all be truthy (not
      missing, not 0) and the month within 1..12. Its year check compares
      with the function `getFullYear` itself, which is never smaller than a
      number, so a future year is never refused. */
  function GetMonthlyBalance(rows: map<int, Transaction>, userId: Option<int>, year: Option<int>, month: Option<int>): (r: Result<MonthlyBalance, string>)
    ensures (userId.None? || userId == Some(0) || year.None? || year == Some(0) || month.None? || month == Some(0))
            ==> r == Failure(MonthlyParamsRequired)
    ensures r.Success? <==> userId.Some? && userId.value != 0 && year.Some? && year.value != 0 && month.Some? && 1 <= month.value <= 12
    ensures r.Failure? && r.error != MonthlyParamsRequired ==> r.error == MonthOutOfRange
    ensures r.Success? ==>
              && r.value.anio == year.value && r.value.mes == month.value
              && r.value.totalIngresos == TotalOf(rows, userId.value, "ingreso", Month(year.value, month.value))
              && r.value.totalGastos == TotalOf(rows, userId.value, "gasto", Month(year.value, month.value))
              && r.value.balance == r.value.totalIngresos - r.value.totalGastos
  {
    if userId.None? || userId.value == 0 || year.None? || year.value == 0 || month.None? || month.value == 0 then
      Failure(MonthlyParamsRequired)
    else if month.value < 1 || month.value > 12 then Failure(MonthOutOfRange)
    else
      var when := Month(year.value, month.value);
      var ingresos := TotalOf(rows, userId.value, "ingreso", when);
      var gastos := TotalOf(rows, userId.value, "gasto", when);
      Success(MonthlyBalance(year.value, month.value, ingresos, gastos, ingresos - gastos))
  }
}
