/** The `goals` table together with its `goal_contributions` ledger: goal
    creation, the sparse `update`, the contribution operations that move
    `monto_actual`, and the finders. The ledger invariant is that every
    goal's `monto_actual` equals the sum of its surviving contributions. */
module Goals {
  import opened Wrappers
  import opened Json
  import opened Text
  import opened Tables
  import opened UpdateBuilder
  import opened GoalContributions

  /** A row of `goals`. `fields` holds the columns a request writes:
      `nombre`, `descripcion`, `monto_objetivo`, `estado`, `fecha_meta`. */
  datatype Goal = Goal(id: int, usuarioId: int, montoActual: int, fields: Object)

  /** The columns `update` may write, in the order it tests them. */
  const GoalColumns: seq<string> := ["nombre", "descripcion", "monto_objetivo", "estado", "fecha_meta"]

  /** The keys `toJSON` lists (the timestamps are not modelled). */
  const GoalJsonKeys: set<string> :=
    {"id", "nombre", "descripcion", "monto_objetivo", "monto_actual", "estado", "fecha_meta", "usuario_id"}

  const GoalNotFound := "Ahorro no encontrado."
  const ContributionNotFound := "Contribución no encontrada."
  const NonPositiveAmount := "El monto debe ser mayor a 0"
  const ContributionAdded := "Contribución agregada correctamente"
  /** What MySQL reports when a contribution names no existing goal. */
  const MissingGoalRow := "Cannot add or update a child row: a foreign key constraint fails"
  /** The value the schema gives `estado` when `create` leaves it out. */
  const DefaultEstado := Str("activo")

  /** The in-memory `Goal` object built from a row. */
  function AsObject(g: Goal): Object
  {
    g.fields + map["id" := Num(g.id), "usuario_id" := Num(g.usuarioId), "monto_actual" := Num(g.montoActual)]
  }

  /** `toJSON()`: the listed keys of the object, nothing else. */
  function ToJson(obj: Object): (r: Object)
    ensures r.Keys <= GoalJsonKeys
    ensures forall k :: k in obj && k in GoalJsonKeys ==> k in r && r[k] == obj[k]
  {
    Project(obj, GoalJsonKeys)
  }

  /** The object `update` returns: the goal after `Object.assign(this,
      updateData)`. Every key of the body is taken, written to the table or
      not, so the response may show a `monto_actual` the row does not have. */
  function Assigned(g: Goal, body: Object): (r: Object)
    ensures forall k :: k in body ==> k in r && r[k] == body[k]
    ensures forall k :: k in AsObject(g) && k !in body ==> k in r && r[k] == AsObject(g)[k]
    ensures r.Keys == AsObject(g).Keys + body.Keys
  {
    Assign(AsObject(g), body)
  }

  /** `update` never writes `monto_actual`: none of its clauses sets it, for
      any body, so the ledger invariant cannot be broken by it. */
  lemma UpdateNeverWritesMontoActual(body: Object, id: int)
    requires Build(GoalColumns, body, Num(id)).Success?
    ensures Clause("monto_actual") !in Build(GoalColumns, body, Num(id)).value.fields
  {
    NeverWritten(GoalColumns, body, Num(id), "monto_actual");
  }

  /** The response of `update` carries the body's `monto_actual` although the
      row keeps its own: the stored balance and the echoed one can differ. */
  lemma ResponseEchoesMontoActual(g: Goal, body: Object)
    requires "monto_actual" in body
    ensures ToJson(Assigned(g, body))["monto_actual"] == body["monto_actual"]
    ensures Overwrite(g.fields, GoalColumns, body).Keys == g.fields.Keys + (set c | c in GoalColumns && c in body)
    ensures "monto_actual" !in g.fields ==> "monto_actual" !in Overwrite(g.fields, GoalColumns, body)
  {
    assert "monto_actual" in GoalJsonKeys;
    assert "monto_actual" !in GoalColumns;
  }

  /** Keys agree, ids are the row keys and below the `AUTO_INCREMENT`
      counter, and each goal's contributions carry its id and ascending
      numbers from 1. */
  ghost predicate ShapedTables(goals: map<int, Goal>, ledger: map<int, seq<Contribution>>, nextId: int)
  {
    && goals.Keys == ledger.Keys
    && nextId >= 1
    && (forall id :: id in goals ==> goals[id].id == id && id < nextId)
    && (forall id {:trigger Tagged(ledger[id], id)} :: id in ledger ==> Tagged(ledger[id], id) && GoalContributions.Ascending(ledger[id]))
  }

  /** The ledger invariant: `monto_actual` is the sum of the amounts. */
  ghost predicate BalancedTables(goals: map<int, Goal>, ledger: map<int, seq<Contribution>>)
  {
    forall id {:trigger Total(ledger[id])} :: id in goals && id in ledger ==> goals[id].montoActual == Total(ledger[id])
  }

  /** A new goal under the next id, at `monto_actual` 0 and with no
      contributions, keeps both tables consistent. */
  lemma AddGoal(goals: map<int, Goal>, ledger: map<int, seq<Contribution>>, nextId: int, g: Goal)
    requires ShapedTables(goals, ledger, nextId) && BalancedTables(goals, ledger)
    requires g.id == nextId && g.montoActual == 0
    ensures ShapedTables(goals[nextId := g], ledger[nextId := []], nextId + 1)
    ensures BalancedTables(goals[nextId := g], ledger[nextId := []])
  {
    var goals', ledger' := goals[nextId := g], ledger[nextId := []];
    assert Tagged(ledger'[nextId], nextId) && Total(ledger'[nextId]) == 0;
    forall k | k in ledger'
      ensures Tagged(ledger'[k], k) && GoalContributions.Ascending(ledger'[k])
    {
      if k != nextId {
        assert ledger'[k] == ledger[k] && Tagged(ledger[k], k);
      }
    }
    forall k | k in goals' && k in ledger'
      ensures goals'[k].montoActual == Total(ledger'[k])
    {
      if k != nextId {
        assert goals'[k] == goals[k] && ledger'[k] == ledger[k];
      }
    }
  }

  /** Replacing one goal and its contributions by a balanced, well-shaped
      pair keeps both tables consistent. */
  lemma ReplaceGoal(goals: map<int, Goal>, ledger: map<int, seq<Contribution>>, nextId: int,
                    id: int, g: Goal, rows: seq<Contribution>)
    requires ShapedTables(goals, ledger, nextId) && BalancedTables(goals, ledger)
    requires id in goals && g.id == id && Tagged(rows, id) && GoalContributions.Ascending(rows)
    requires g.montoActual == Total(rows)
    ensures ShapedTables(goals[id := g], ledger[id := rows], nextId)
    ensures BalancedTables(goals[id := g], ledger[id := rows])
  {
    ReplaceRows(goals, ledger, nextId, id, rows);
    var goals', ledger' := goals[id := g], ledger[id := rows];
    assert goals'.Keys == ledger'.Keys;
    assert forall k :: k in ledger' ==> Tagged(ledger'[k], k) && GoalContributions.Ascending(ledger'[k]);
    forall k | k in goals' && k in ledger'
      ensures goals'[k].id == k && k < nextId && goals'[k].montoActual == Total(ledger'[k])
    {
      if k != id {
        assert goals'[k] == goals[k] && goals[k].montoActual == Total(ledger[k]);
      }
    }
  }

  /** Replacing the contributions of one goal by a well-shaped list keeps
      the tables well shaped. */
  lemma ReplaceRows(goals: map<int, Goal>, ledger: map<int, seq<Contribution>>, nextId: int,
                    id: int, rows: seq<Contribution>)
    requires ShapedTables(goals, ledger, nextId)
    requires id in ledger && Tagged(rows, id) && GoalContributions.Ascending(rows)
    ensures ShapedTables(goals, ledger[id := rows], nextId)
  {
    var after := ledger[id := rows];
    forall k | k in after
      ensures Tagged(after[k], k) && GoalContributions.Ascending(after[k])
    {
      if k != id {
        assert Tagged(ledger[k], k);
      }
    }
  }

  /** Changing a goal's other columns, keeping its id and `monto_actual`,
      keeps both tables consistent. */
  lemma ReplaceGoalColumns(goals: map<int, Goal>, ledger: map<int, seq<Contribution>>, nextId: int,
                           id: int, g: Goal)
    requires ShapedTables(goals, ledger, nextId) && BalancedTables(goals, ledger)
    requires id in goals && g.id == id && g.montoActual == goals[id].montoActual
    ensures ShapedTables(goals[id := g], ledger, nextId) && BalancedTables(goals[id := g], ledger)
  {
    var after := goals[id := g];
    assert after.Keys == ledger.Keys;
    forall k | k in after && k in ledger
      ensures after[k].id == k && k < nextId && after[k].montoActual == Total(ledger[k])
    {
      assert k != id ==> after[k] == goals[k];
    }
    assert forall k :: k in ledger ==> Tagged(ledger[k], k) && GoalContributions.Ascending(ledger[k]);
  }

  /** Deleting a contribution that exists, and taking its amount off the
      goal, keeps both tables consistent. */
  lemma RemoveContribution(goals: map<int, Goal>, ledger: map<int, seq<Contribution>>, nextId: int,
                           goalId: int, nro: int, c: Contribution,
                           goals': map<int, Goal>, ledger': map<int, seq<Contribution>>)
    requires ShapedTables(goals, ledger, nextId) && BalancedTables(goals, ledger)
    requires goalId in goals && FindByGoalAndNumber(ledger[goalId], nro) == Some(c)
    requires goals' == goals[goalId := goals[goalId].(montoActual := goals[goalId].montoActual - c.monto)]
    requires ledger' == ledger[goalId := Without(ledger[goalId], nro)]
    ensures ShapedTables(goals', ledger', nextId) && BalancedTables(goals', ledger')
  {
    var rows := ledger[goalId];
    assert Tagged(rows, goalId);
    TotalWithout(rows, nro, c);
    WithoutAscending(rows, nro);
    WithoutTagged(rows, nro, goalId);
    ReplaceGoal(goals, ledger, nextId, goalId, goals[goalId].(montoActual := goals[goalId].montoActual - c.monto), Without(rows, nro));
  }

  /** A store of goals and the contributions of each, in insertion order. */
  class GoalStore {
    var goals: map<int, Goal>
    var ledger: map<int, seq<Contribution>>
    var nextId: int

    ghost predicate Shaped()
      reads this
    {
      ShapedTables(goals, ledger, nextId)
    }

    ghost predicate Balanced()
      reads this
    {
      BalancedTables(goals, ledger)
    }

    ghost predicate Valid()
      reads this
    {
      Shaped() && Balanced()
    }

    constructor ()
      ensures Valid() && goals == map[] && ledger == map[]
    {
      goals := map[];
      ledger := map[];
      nextId := 1;
    }

    /** `Goal.create`: a new row with the next id, `monto_objetivo` as
        `parseFloat` reads it, `monto_actual` 0 (the schema default) and no
        contributions. */
    method Create(nombre: Value, descripcion: Value, montoObjetivo: Value, fechaMeta: Value, usuarioId: int)
      returns (g: Goal)
      requires Valid()
      modifies this
      ensures Valid()
      ensures g.id !in old(goals) && g.usuarioId == usuarioId && g.montoActual == 0
      ensures g.fields == map["nombre" := nombre, "descripcion" := descripcion, "monto_objetivo" := ParseFloat(montoObjetivo),
                              "estado" := DefaultEstado, "fecha_meta" := fechaMeta]
      ensures goals == old(goals)[g.id := g] && ledger == old(ledger)[g.id := []]
    {
      g := Goal(nextId, usuarioId, 0,
                map["nombre" := nombre, "descripcion" := descripcion, "monto_objetivo" := ParseFloat(montoObjetivo),
                    "estado" := DefaultEstado, "fecha_meta" := fechaMeta]);
      AddGoal(goals, ledger, nextId, g);
      goals := goals[nextId := g];
      ledger := ledger[nextId := []];
      nextId := nextId + 1;
    }

    /** `GoalContribution.create`: reads `MAX(nro) + 1` for the goal, then
        inserts the row; the insert fails when the goal does not exist. The
        goal's `monto_actual` is not touched here. */
    method CreateContribution(goalId: int, monto: int) returns (r: Result<Contribution, string>)
      requires Shaped()
      modifies this`ledger
      ensures Shaped()
      ensures goalId !in old(ledger) ==> r == Failure(MissingGoalRow) && ledger == old(ledger)
      ensures goalId in old(ledger) ==>
                var c := Contribution(goalId, NextNro(old(ledger)[goalId]), monto);
                r == Success(c) && ledger == old(ledger)[goalId := old(ledger)[goalId] + [c]]
    {
      var rows := ContributionsOf(ledger, goalId);
      var nextNum := NextNro(rows);
      if goalId !in ledger {
        return Failure(MissingGoalRow);
      }
      var c := Contribution(goalId, nextNum, monto);
      assert Tagged(rows, goalId);
      AppendNext(rows, goalId, monto);
      ReplaceRows(goals, ledger, nextId, goalId, rows + [c]);
      ledger := ledger[goalId := rows + [c]];
      r := Success(c);
    }

    /** `Goal.addContribution`: refuses a non-positive amount before
        anything else; otherwise inserts the contribution and raises
        `monto_actual` by the amount. The insert runs outside the
        transaction; the one failure modelled, a refused insert, changes
        nothing. */
    method AddContribution(goalId: int, monto: int) returns (r: Result<string, string>)
      requires Valid()
      modifies this
      ensures Valid()
      ensures monto <= 0 ==> r == Failure(NonPositiveAmount)
      ensures monto > 0 ==> (r.Success? <==> goalId in old(goals))
      ensures r.Failure? ==> goals == old(goals) && ledger == old(ledger) && nextId == old(nextId)
      ensures r.Success? ==>
                && goalId in old(goals)
                && r.value == ContributionAdded
                && ledger == old(ledger)[goalId := old(ledger)[goalId] + [Contribution(goalId, NextNro(old(ledger)[goalId]), monto)]]
                && goals == old(goals)[goalId := old(goals)[goalId].(montoActual := old(goals)[goalId].montoActual + monto)]
      ensures nextId == old(nextId)
    {
      if monto <= 0 {
        return Failure(NonPositiveAmount);
      }
      ghost var before := ledger;
      var created := CreateContribution(goalId, monto);
      assert goals == old(goals) && before == old(ledger);
      if created.Failure? {
        return Failure(created.error);
      }
      var g := goals[goalId];
      var raised := g.(montoActual := g.montoActual + monto);
      assert Tagged(before[goalId], goalId);
      AppendNext(before[goalId], goalId, monto);
      TotalAppend(before[goalId], created.value);
      ReplaceGoal(goals, before, nextId, goalId, raised, before[goalId] + [created.value]);
      goals := goals[goalId := raised];
      r := Success(ContributionAdded);
    }

    /** `GoalContribution.delete`: the goal must exist, then the numbered
        contribution; on success `monto_actual` drops by that row's amount
        and only that row is removed. A failure changes nothing. */
    method DeleteContribution(goalId: int, nro: int) returns (r: Result<bool, string>)
      requires Valid()
      modifies this`goals, this`ledger
      ensures Valid()
      ensures goalId !in old(ledger) ==> r == Failure(GoalNotFound)
      ensures goalId in old(ledger) && FindByGoalAndNumber(old(ledger)[goalId], nro).None? ==>
                r == Failure(ContributionNotFound)
      ensures r.Failure? ==> goals == old(goals) && ledger == old(ledger)
      ensures goalId in old(ledger) && FindByGoalAndNumber(old(ledger)[goalId], nro).Some? ==> r == Success(true)
      ensures r.Success? ==>
                && r.value
                && goalId in old(ledger)
                && FindByGoalAndNumber(old(ledger)[goalId], nro).Some?
                && ledger == old(ledger)[goalId := Without(old(ledger)[goalId], nro)]
      ensures r.Success? ==>
                goals == old(goals)[goalId := old(goals)[goalId].(montoActual :=
                  old(goals)[goalId].montoActual - FindByGoalAndNumber(old(ledger)[goalId], nro).value.monto)]
    {
      if goalId !in goals {
        return Failure(GoalNotFound);
      }
      var g := goals[goalId];
      var rows := ledger[goalId];
      var found := FindByGoalAndNumber(rows, nro);
      if found.None? {
        return Failure(ContributionNotFound);
      }
      var c := found.value;
      goals := goals[goalId := g.(montoActual := g.montoActual - c.monto)];
      ledger := ledger[goalId := Without(rows, nro)];
      RemoveContribution(old(goals), old(ledger), nextId, goalId, nro, c, goals, ledger);
      r := Success(true);
    }

    /** `goal.update(updateData)`: writes the defined columns among
        `GoalColumns` and answers the object after `Object.assign`; with no
        such column it throws and writes nothing. `monto_actual` and the
        ledger never change. */
    method Update(id: int, body: Object) returns (r: Result<Object, string>)
      requires Valid() && id in goals
      modifies this`goals
      ensures Valid()
      ensures r.Failure? <==> forall c :: c in GoalColumns ==> c !in body
      ensures r.Failure? ==> r.error == NoFields && goals == old(goals)
      ensures r.Success? ==>
                && goals == old(goals)[id := old(goals)[id].(fields := Overwrite(old(goals)[id].fields, GoalColumns, body))]
                && r.value == Assigned(old(goals)[id], body)
    {
      var g := goals[id];
      var st := BuildUpdate(GoalColumns, body, Num(id));
      BuildFails(GoalColumns, body, Num(id));
      if st.Failure? {
        return Failure(st.error);
      }
      var updated := g.(fields := Overwrite(g.fields, GoalColumns, body));
      ReplaceGoalColumns(goals, ledger, nextId, id, updated);
      goals := goals[id := updated];
      r := Success(Assigned(g, body));
    }
  }

  /** `WHERE goal_id = ?` on `goal_contributions`: no rows for a goal the
      ledger does not know. */
  function ContributionsOf(ledger: map<int, seq<Contribution>>, goalId: int): seq<Contribution>
  {
    if goalId in ledger then ledger[goalId] else []
  }

  /** `findById`: the row with that id, or `null`. */
  function FindById(goals: map<int, Goal>, id: int): (r: Option<Goal>)
    ensures r.None? <==> id !in goals
    ensures r.Some? ==> r.value == goals[id]
  {
    Lookup(goals, id)
  }

  /** `findByUserId`: the user's goals, or `null` when there are none. */
  function FindByUserId(goals: map<int, Goal>, userId: int): (r: Option<seq<Goal>>)
    ensures r.None? <==> forall id :: id in goals ==> goals[id].usuarioId != userId
    ensures r.Some? ==> forall g :: g in r.value <==> g in goals.Values && g.usuarioId == userId
  {
    Find(goals, (g: Goal) => g.usuarioId == userId)
  }

  /** `nombre LIKE '%text%'`: a string name containing the text. */
  predicate NameMatches(g: Goal, text: string)
  {
    "nombre" in g.fields && g.fields["nombre"].Str? && Contains(g.fields["nombre"].s, text)
  }

  /** `findByName`: the user's goals whose name contains `text`, or `null`. */
  function FindByName(goals: map<int, Goal>, userId: int, text: string): (r: Option<seq<Goal>>)
    ensures r.None? <==> forall id :: id in goals ==> !(goals[id].usuarioId == userId && NameMatches(goals[id], text))
    ensures r.Some? ==> forall g :: g in r.value <==> g in goals.Values && g.usuarioId == userId && NameMatches(g, text)
  {
    Find(goals, (g: Goal) => g.usuarioId == userId && NameMatches(g, text))
  }

  /** `findByState`: the user's goals whose `estado` is `estado`, or `null`. */
  function FindByState(goals: map<int, Goal>, userId: int, estado: string): (r: Option<seq<Goal>>)
    ensures r.None? <==> forall id :: id in goals ==> !(goals[id].usuarioId == userId && "estado" in goals[id].fields && goals[id].fields["estado"] == Str(estado))
    ensures r.Some? ==> forall g :: g in r.value <==> g in goals.Values && g.usuarioId == userId && "estado" in g.fields && g.fields["estado"] == Str(estado)
    ensures (if r.Some? then |r.value| else 0) ==
            |set id | id in goals && goals[id].usuarioId == userId && "estado" in goals[id].fields && goals[id].fields["estado"] == Str(estado)|
  {
    var keep := (g: Goal) => g.usuarioId == userId && "estado" in g.fields && g.fields["estado"] == Str(estado);
    assert KeysWhere(goals, keep) ==
           set id | id in goals && goals[id].usuarioId == userId && "estado" in goals[id].fields && goals[id].fields["estado"] == Str(estado);
    Find(goals, keep)
  }
}
