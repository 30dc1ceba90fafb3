/** The handlers of `goalControllers.js` that touch the ledger or decide
    who may change a goal. Each handler is a chain of early returns (a
    `Check` or a `Result` whose failure is the reply), followed by one call
    into the store. `userId` is `req.user.userId`, set by the middleware. */
module GoalControllers {
  import opened Wrappers
  import opened Json
  import opened Http
  import UpdateBuilder
  import opened DateValidator
  import opened GoalContributions
  import opened Goals

  const AllRequired := "Todos los campos son obligatorios."
  const ServerError := "Error interno en el servidor."
  const ServerErrorDel := "Error interno del servidor."
  const GoalCreated := "Ahorro creado exitosamente."
  const GoalMissing := "Ahorro no encontrado"
  const NotYoursToModify := "No tienes permisos para modificar este ahorro."
  const NotYoursToDelete := "No tienes permisos para eliminar este ahorro."
  const NotYoursToSee := "No tienes permisos para ver las contribuciones de este ahorro."
  const NothingToUpdate := "No se proporcionaron datos para actualizar."
  const GoalUpdated := "Ahorro actualizado exitosamente."
  const StateRequired := "El estado de ahorro es requerido."
  const BadState := "El estado debe ser \"activo\" - \"cancelado\" - \"completado\"."
  const MustProvide := "Debe proporcionar el goal_id y el monto."
  const AmountNotPositive := "El monto debe ser mayor a cero."
  // The next three are the handler's literal texts, whose accented letters
  // the file carries as the characters U+8D38 and U+7164.
  const ContributionAddedReply := "Contribuci\U{8D38}n agregada exitosamente."
  const MustProvideIds := "Debe proporcionar el ID del ahorro y el n\U{7164}mero de contribuci\U{8D38}n."
  const ContributionMissing := "Contribuci\U{8D38}n no encontrada."
  const ContributionDeleted := "Contribucion eliminada exitosamente."

  const GoalStates: set<string> := {"activo", "cancelado", "completado"}

  // ---------------------------------------------------------------------
  // createGoal

  /** All three of `nombre`, `monto_objetivo`, `fecha_meta` are truthy. */
  predicate HasGoalFields(body: Object)
  {
    Given(body, "nombre") && Given(body, "monto_objetivo") && Given(body, "fecha_meta")
  }

  /** `createGoal`'s checks: the required fields, then `validarFecha` on
      `fecha_meta` without the year check. A `fecha_meta` that is not a
      string makes `validarFecha` throw, which the handler answers with 500. */
  function CreateGoalCheck(body: Object, currentYear: int): (c: Check)
    ensures !HasGoalFields(body) ==> c == Deny(400, AllRequired)
    ensures c == Pass <==>
              HasGoalFields(body) && body["fecha_meta"].Str? && ValidarFecha(body["fecha_meta"].s, false, currentYear).valido
    ensures HasGoalFields(body) && body["fecha_meta"].Str? && !ValidarFecha(body["fecha_meta"].s, false, currentYear).valido
            ==> c == Deny(400, ValidarFecha(body["fecha_meta"].s, false, currentYear).mensaje)
    ensures HasGoalFields(body) && !body["fecha_meta"].Str? ==> c == Deny(500, ServerError)
  {
    if !HasGoalFields(body) then Deny(400, AllRequired)
    else if !body["fecha_meta"].Str? then Deny(500, ServerError)
    else
      var v := ValidarFecha(body["fecha_meta"].s, false, currentYear);
      if !v.valido then Deny(400, v.mensaje) else Pass
  }

  /** A goal date in any later year is accepted: `createGoal` never asks for
      the year check. */
  lemma CreateGoalAcceptsLaterYears(body: Object, y: nat, m: nat, d: nat, currentYear: int)
    requires Given(body, "nombre") && Given(body, "monto_objetivo")
    requires "fecha_meta" in body && body["fecha_meta"] == Str(Format(y, m, d, '-'))
    requires IsCalendarDate(JsYear(y), m, d)
    ensures CreateGoalCheck(body, currentYear) == Pass
  {
    ValidarFechaOfNumbers(y, m, d, '-', false, currentYear);
    assert Format(y, m, d, '-') != [];
  }

  /** `createGoal`: after the checks, creates the goal with
      `parseFloat(monto_objetivo)`, `descripcion || null` and the caller as
      owner, and answers 201. */
  method CreateGoal(store: GoalStore, userId: int, body: Object, currentYear: int)
    returns (reply: Reply, created: Option<Goal>)
    requires store.Valid()
    modifies store
    ensures store.Valid()
    ensures CreateGoalCheck(body, currentYear).Stop? ==>
              reply == CreateGoalCheck(body, currentYear).reply && created.None? && unchanged(store)
    ensures CreateGoalCheck(body, currentYear) == Pass ==>
              && reply == Reply(201, GoalCreated)
              && created.Some?
              && created.value.id !in old(store.goals)
              && created.value.usuarioId == userId && created.value.montoActual == 0
              && "descripcion" in created.value.fields
              && created.value.fields["descripcion"] == OrElse(body, "descripcion", Null)
              && "monto_objetivo" in created.value.fields
              && created.value.fields["monto_objetivo"] == ParseFloat(body["monto_objetivo"])
              && created.value.fields ==
                   map["nombre" := body["nombre"], "descripcion" := OrElse(body, "descripcion", Null),
                       "monto_objetivo" := ParseFloat(body["monto_objetivo"]), "estado" := DefaultEstado,
                       "fecha_meta" := body["fecha_meta"]]
              && store.goals == old(store.goals)[created.value.id := created.value]
              && store.ledger == old(store.ledger)[created.value.id := []]
  {
    var check := CreateGoalCheck(body, currentYear);
    if check.Stop? {
      return check.reply, None;
    }
    var g := store.Create(body["nombre"], OrElse(body, "descripcion", Null), ParseFloat(body["monto_objetivo"]),
                          body["fecha_meta"], userId);
    reply, created := Reply(201, GoalCreated), Some(g);
  }

  // ---------------------------------------------------------------------
  // updateGoal

  /** `updateGoal`'s checks: 404, then 403 for another user's goal, then
      400 for an empty body. */
  function UpdateGoalCheck(goal: Option<Goal>, userId: int, body: Object): (c: Check)
    ensures goal.None? ==> c == Deny(404, GoalMissing)
    ensures goal.Some? && goal.value.usuarioId != userId ==> c == Deny(403, NotYoursToModify)
    ensures c == Pass <==> goal.Some? && goal.value.usuarioId == userId && body != map[]
    ensures c.Stop? ==> c.reply.status in {400, 403, 404}
  {
    if goal.None? then Deny(404, GoalMissing)
    else if goal.value.usuarioId != userId then Deny(403, NotYoursToModify)
    else if body == map[] then Deny(400, NothingToUpdate)
    else Pass
  }

  /** `updateGoal`: after the checks, `goal.update(req.body)`; its throw (a
      body with no updatable column) becomes a 500. Balances and the ledger
      are never touched, whatever the body holds. */
  method UpdateGoal(store: GoalStore, userId: int, id: int, body: Object) returns (reply: Reply, json: Option<Object>)
    requires store.Valid()
    modifies store
    ensures store.Valid()
    ensures UpdateGoalCheck(FindById(old(store.goals), id), userId, body).Stop? ==>
              reply == UpdateGoalCheck(FindById(old(store.goals), id), userId, body).reply && unchanged(store)
    ensures UpdateGoalCheck(FindById(old(store.goals), id), userId, body) == Pass ==>
              && (reply.status == 500 <==> forall c :: c in GoalColumns ==> c !in body)
              && (reply.status == 500 ==> reply.message == ServerError && store.goals == old(store.goals))
              && (reply.status != 500 ==>
                    && reply == Reply(200, GoalUpdated) && json == Some(ToJson(Assigned(old(store.goals)[id], body)))
                    && store.goals == old(store.goals)[id := old(store.goals)[id].(fields :=
                                        UpdateBuilder.Overwrite(old(store.goals)[id].fields, GoalColumns, body))])
    ensures store.ledger == old(store.ledger)
    ensures store.goals.Keys == old(store.goals.Keys)
    ensures forall k :: k in store.goals ==> store.goals[k].montoActual == old(store.goals)[k].montoActual
  {
    var check := UpdateGoalCheck(FindById(store.goals, id), userId, body);
    if check.Stop? {
      return check.reply, None;
    }
    var r := store.Update(id, body);
    if r.Failure? {
      return Reply(500, ServerError), None;
    }
    reply, json := Reply(200, GoalUpdated), Some(ToJson(r.value));
  }

  // ---------------------------------------------------------------------
  // getGoalByState

  /** `getGoalByState`: `estado` is required and must be one of the three
      states; the answer lists the caller's goals in that state (`count` 0
      when `findByState` answers `null`). */
  function GetGoalByState(goals: map<int, Goal>, userId: int, estado: Option<string>): (r: Result<seq<Goal>, Reply>)
    ensures estado.None? || estado == Some("") ==> r == Failure(Reply(400, StateRequired))
    ensures r.Failure? <==> estado.None? || estado.value !in GoalStates
    ensures r.Failure? ==> r.error.status == 400
    ensures r.Success? ==> forall g :: g in r.value <==>
              g in goals.Values && g.usuarioId == userId && "estado" in g.fields && g.fields["estado"] == Str(estado.value)
    ensures r.Success? ==>
              |r.value| == |set id | id in goals && goals[id].usuarioId == userId && "estado" in goals[id].fields && goals[id].fields["estado"] == Str(estado.value)|
  {
    if estado.None? || estado.value == "" then Failure(Reply(400, StateRequired))
    else if estado.value !in GoalStates then Failure(Reply(400, BadState))
    else
      match FindByState(goals, userId, estado.value)
      case None => Success([])
      case Some(found) => Success(found)
  }

  // ---------------------------------------------------------------------
  // addContribution

  /** JavaScript falsiness of a numeric body field (`undefined` or 0). */
  predicate Falsy(x: Option<int>)
  {
    x.None? || x.value == 0
  }

  /** `addContribution`'s checks: both fields truthy (so an amount of 0 gets
      this message, not the next), a positive amount, then 404 and 403. */
  function AddContributionCheck(goals: map<int, Goal>, userId: int, goalId: Option<int>, monto: Option<int>): (c: Check)
    ensures Falsy(goalId) || Falsy(monto) ==> c == Deny(400, MustProvide)
    ensures !Falsy(goalId) && !Falsy(monto) && monto.value < 0 ==> c == Deny(400, AmountNotPositive)
    ensures c == Pass <==>
              !Falsy(goalId) && monto.Some? && monto.value > 0 && goalId.value in goals && goals[goalId.value].usuarioId == userId
    ensures c.Stop? && c.reply.status == 404 <==>
              !Falsy(goalId) && !Falsy(monto) && monto.value > 0 && goalId.value !in goals
  {
    if Falsy(goalId) || Falsy(monto) then Deny(400, MustProvide)
    else if monto.value <= 0 then Deny(400, AmountNotPositive)
    else match FindById(goals, goalId.value)
      case None => Deny(404, Goals.GoalNotFound)
      case Some(goal) => if goal.usuarioId != userId then Deny(403, NotYoursToModify) else Pass
  }

  /** Missing, zero and negative amounts are refused before any lookup: the
      answer does not depend on the stored goals. */
  lemma AmountCheckedBeforeLookup(goals: map<int, Goal>, others: map<int, Goal>, userId: int, goalId: Option<int>, monto: Option<int>)
    requires Falsy(goalId) || Falsy(monto) || monto.value < 0
    ensures AddContributionCheck(goals, userId, goalId, monto) == AddContributionCheck(others, userId, goalId, monto)
    ensures AddContributionCheck(goals, userId, goalId, monto).Stop?
  {
  }

  /** `addContribution`: after the checks, `Goal.addContribution`; 201 on
      success, otherwise 500 with the error's message. */
  method AddContribution(store: GoalStore, userId: int, goalId: Option<int>, monto: Option<int>) returns (reply: Reply)
    requires store.Valid()
    modifies store
    ensures store.Valid()
    ensures AddContributionCheck(old(store.goals), userId, goalId, monto).Stop? ==>
              reply == AddContributionCheck(old(store.goals), userId, goalId, monto).reply && unchanged(store)
    ensures AddContributionCheck(old(store.goals), userId, goalId, monto) == Pass ==>
              var id := goalId.value;
              && reply == Reply(201, ContributionAddedReply)
              && store.ledger == old(store.ledger)[id := old(store.ledger)[id] + [Contribution(id, NextNro(old(store.ledger)[id]), monto.value)]]
              && store.goals == old(store.goals)[id := old(store.goals)[id].(montoActual := old(store.goals)[id].montoActual + monto.value)]
  {
    var check := AddContributionCheck(store.goals, userId, goalId, monto);
    if check.Stop? {
      return check.reply;
    }
    var r := store.AddContribution(goalId.value, monto.value);
    match r
    case Success(_) => reply := Reply(201, ContributionAddedReply);
    case Failure(e) => reply := Reply(500, MessageOr(e, ServerErrorDel));
  }

  // ---------------------------------------------------------------------
  // deleteContribution

  /** `deleteContribution`'s checks: both route parameters (a parameter is
      a non-empty string, so only a missing one fails), the goal (404), its
      owner (403) and the numbered contribution (404). On success the row
      read here is the snapshot the answer carries. */
  function DeleteContributionCheck(goals: map<int, Goal>, ledger: map<int, seq<Contribution>>, userId: int,
                                   goalId: Option<int>, nro: Option<int>): (r: Result<Contribution, Reply>)
    ensures goalId.None? || nro.None? ==> r == Failure(Reply(400, MustProvideIds))
    ensures goalId.Some? && nro.Some? && goalId.value !in goals ==> r == Failure(Reply(404, Goals.GoalNotFound))
    ensures goalId.Some? && nro.Some? && goalId.value in goals && goals[goalId.value].usuarioId != userId ==>
              r == Failure(Reply(403, NotYoursToDelete))
    ensures r.Success? <==>
              && goalId.Some? && nro.Some? && goalId.value in goals && goals[goalId.value].usuarioId == userId
              && FindByGoalAndNumber(ContributionsOf(ledger, goalId.value), nro.value).Some?
    ensures r.Success? ==> r.value in ContributionsOf(ledger, goalId.value) && r.value.nro == nro.value
  {
    if goalId.None? || nro.None? then Failure(Reply(400, MustProvideIds))
    else match FindById(goals, goalId.value)
      case None => Failure(Reply(404, Goals.GoalNotFound))
      case Some(goal) =>
        if goal.usuarioId != userId then Failure(Reply(403, NotYoursToDelete))
        else match FindByGoalAndNumber(ContributionsOf(ledger, goalId.value), nro.value)
          case None => Failure(Reply(404, ContributionMissing))
          case Some(c) => Success(c)
  }

  /** `deleteContribution`: after the checks, `GoalContribution.delete`;
      the answer carries the row read before the deletion, and the goal's
      balance drops by exactly that row's amount. */
  method DeleteContribution(store: GoalStore, userId: int, goalId: Option<int>, nro: Option<int>)
    returns (reply: Reply, deleted: Option<Contribution>)
    requires store.Valid()
    modifies store
    ensures store.Valid()
    ensures DeleteContributionCheck(old(store.goals), old(store.ledger), userId, goalId, nro).Failure? ==>
              reply == DeleteContributionCheck(old(store.goals), old(store.ledger), userId, goalId, nro).error
              && deleted.None? && unchanged(store)
    ensures DeleteContributionCheck(old(store.goals), old(store.ledger), userId, goalId, nro).Success? ==>
              && reply == Reply(200, ContributionDeleted)
              && deleted == Some(DeleteContributionCheck(old(store.goals), old(store.ledger), userId, goalId, nro).value)
              && store.ledger == old(store.ledger)[goalId.value := Without(old(store.ledger)[goalId.value], nro.value)]
    ensures deleted.Some? ==>
              store.goals == old(store.goals)[goalId.value := old(store.goals)[goalId.value].(montoActual :=
                               old(store.goals)[goalId.value].montoActual - deleted.value.monto)]
  {
    var check := DeleteContributionCheck(store.goals, store.ledger, userId, goalId, nro);
    if check.Failure? {
      return check.error, None;
    }
    var id, c := goalId.value, check.value;
    assert FindByGoalAndNumber(store.ledger[id], nro.value) == Some(c);
    var r := store.DeleteContribution(id, nro.value);
    match r
    case Success(_) =>
      reply, deleted := Reply(200, ContributionDeleted), Some(c);
    case Failure(e) =>
      reply, deleted := Reply(500, MessageOr(e, ServerError)), None;
  }

  // ---------------------------------------------------------------------
  // getContributionsByGoal

  /** The answer of `getContributionsByGoal`: the listing, its length and
      the sum of its amounts. */
  datatype ContributionList = ContributionList(contributions: seq<Contribution>, count: int, total: int)

  /** `contributions.reduce((acc, c) => acc + parseFloat(c.monto), 0)`,
      from an accumulator `acc` (0 at the call); the stored amounts are
      already integers, so `parseFloat` leaves them as they are. */
  function Reduce(cs: seq<Contribution>, acc: int): int
    decreases |cs|
  {
    if cs == [] then acc else Reduce(cs[1..], acc + cs[0].monto)
  }

  /** Folding from the left adds the same amounts as `Total`. */
  lemma {:induction false} ReduceIsTotal(cs: seq<Contribution>, acc: int)
    ensures Reduce(cs, acc) == acc + Total(cs)
    decreases |cs|
  {
    if cs != [] {
      ReduceIsTotal(cs[1..], acc + cs[0].monto);
      TotalCons(cs[0], cs[1..]);
      assert [cs[0]] + cs[1..] == cs;
    }
  }

  /** `getContributionsByGoal`: 404, then 403, then the goal's
      contributions newest first with their count and total. */
  function GetContributionsByGoal(goals: map<int, Goal>, ledger: map<int, seq<Contribution>>, userId: int, goalId: int)
    : (r: Result<ContributionList, Reply>)
    ensures goalId !in goals ==> r == Failure(Reply(404, Goals.GoalNotFound))
    ensures goalId in goals && goals[goalId].usuarioId != userId ==> r == Failure(Reply(403, NotYoursToSee))
    ensures r.Success? <==> goalId in goals && goals[goalId].usuarioId == userId
    ensures r.Success? ==> r.value.contributions == FindByContribution(ContributionsOf(ledger, goalId))
  {
    match FindById(goals, goalId)
    case None => Failure(Reply(404, Goals.GoalNotFound))
    case Some(goal) =>
      if goal.usuarioId != userId then Failure(Reply(403, NotYoursToSee))
      else
        var cs := FindByContribution(ContributionsOf(ledger, goalId));
        Success(ContributionList(cs, |cs|, Reduce(cs, 0)))
  }

  /** On a consistent store the reported total is the goal's `monto_actual`,
      the count is the number of its contributions, and the listing holds
      exactly those rows, strictly newest first. */
  lemma ContributionTotalIsBalance(goals: map<int, Goal>, ledger: map<int, seq<Contribution>>, nextId: int,
                                   userId: int, goalId: int)
    requires ShapedTables(goals, ledger, nextId) && BalancedTables(goals, ledger)
    requires GetContributionsByGoal(goals, ledger, userId, goalId).Success?
    ensures var list := GetContributionsByGoal(goals, ledger, userId, goalId).value;
            && list.total == goals[goalId].montoActual
            && list.count == |ledger[goalId]|
            && multiset(list.contributions) == multiset(ledger[goalId])
            && Descending(list.contributions)
  {
    var rows := ledger[goalId];
    assert Tagged(rows, goalId);
    FindByContributionOrder(rows);
    ReduceIsTotal(FindByContribution(rows), 0);
  }
}
