# Finance-Manager backend core, modelled in Dafny

This project models the decision logic of the Finance-Manager backend, an
Express/MySQL service for personal finances. It covers:

- **The savings-goal ledger.**
  - `goals` rows carry `monto_objetivo` and a running `monto_actual`.
  - `goal_contributions` rows are `(goal_id, nro_contribution, monto)`.
  - `Goal.addContribution` numbers a new contribution `MAX(nro) + 1`, inserts it and raises `monto_actual`.
  - `GoalContribution.delete` lowers `monto_actual` by the row's amount and removes the row.
  - `goal.update` never writes `monto_actual`.
  - The store class `Goals.GoalStore` keeps the invariant `monto_actual == sum of the goal's contribution amounts` through every operation.
- **The date validator** `validarFecha` / `validarRangoFechas`.
  - It checks `YYYY-MM-DD` or `YYYY/MM/DD` dates: the month, then the days of the month under the Gregorian leap-year rule, then an optional "not after the current year".
  - The check is reproduced with JavaScript's `parseInt` and with `new Date(y, m, 0)`: its reading of two-digit years and the range of years a `Date` can hold.
  - The current year is a parameter.
- **The sparse `UPDATE` builders** of goals, transactions, budgets and categories (`UpdateBuilder`).
  - Each pushes one `col = ?` clause and one value per defined column, in a fixed column order.
  - It throws `No hay campos para actualizar` when nothing is left, and appends the id last.
- **The category rules.**
  - A category is usable by a user when it is a default one (no owner) or the user's own.
  - Default categories can be neither changed nor deleted.
  - `canDelete`, and the finders `getAvalibleForUser` and `findByUserAndType`.
- **The handlers' decision chains** for goals, categories, transactions, budgets and accounts.
  - Each is an early-return sequence of checks mapping the request and the tables to a status (400/401/403/404/409/500), followed by the mutating call.
- **The `authenticateToken` middleware**: the `Bearer ` header parsing, with `jwt.verify` as a parameter.

Tables are `map<int, Row>` fields of store classes (`GoalStore`,
`CategoryStore`, `TransactionStore`, `BudgetStore`, `UserStore`) whose
methods change them in place.

Request bodies are `Json.Object` values: a key is present exactly when the
JavaScript value is not `undefined`. Values are `Null | Bool | Num(int) | Str`.

Lookups and checks are functions over those maps. Handlers that end in a
mutating call are methods on the store. Replies are `Http.Reply(status,
message)`, and every message is the source's own text.

Behaviour of the code that a reader may not expect is modelled as written:

- Contribution numbers are `MAX + 1` over the *surviving* rows, so a number can be handed out again after the highest contribution is deleted (`GoalContributions.NumbersFollowSurvivors`).
- Defects of the code are reproduced as written, each stated by a lemma:
  - `Category.delete`'s transaction-count guard never fires (`Categories.CountGuardNeverFires`, `CategoryControllers.DeleteIgnoresCanDelete`).
  - `getMonthlyBalance`'s year check never fires (`Transactions.GetMonthlyBalance`).
  - `getBudgetByName` answers 403 for every match (`BudgetControllers.GetBudgetByName`).
  - `getCategories` fails with 500 when there is no category (`CategoryControllers.GetCategories`).
  - `validarFecha` accepts any text without digits or separators, such as `mañana` (`DateValidator.AcceptsText`).
  - `validarFecha` accepts any day from 1 on in a year past the range of a JavaScript `Date`, such as `300000-2-30`, because the length of that month is NaN (`DateValidator.AcceptsAnyDayPastDateRange`).
- Two messages of `goalControllers.js` carry the characters U+8D38 and U+7164 where `ó` and `ú` were intended. The model keeps them as they are in the file.

## Model

| member | source | states |
|---|---|---|
| GoalContributions.MaxNro | backend/src/models/GoalContribution.js:18-23 | the `IFNULL(MAX(nro), 0)` read is 0 for no rows, bounds every number and is attained by one row |
| GoalContributions.NextNro | backend/src/models/GoalContribution.js:18-23 | the first contribution gets 1; otherwise the number is one more than the highest stored number, so it is above every surviving number |
| GoalContributions.NextAfterLast | backend/src/models/GoalContribution.js:18-23 | on rows kept in insertion order the next number is the last row's number plus one |
| GoalContributions.NumbersFollowSurvivors | backend/src/models/GoalContribution.js:19 | numbering follows the surviving rows only: deleting any row but the last leaves the next number unchanged; deleting the last row makes the next number one past the rows before it, never above the deleted number (so 3 is handed out again after #3 of 1, 2, 3 is deleted) |
| GoalContributions.AppendNext | backend/src/models/GoalContribution.js:18-28 | appending the row numbered by `create` keeps the goal's rows strictly ascending and tagged with the goal |
| GoalContributions.FindByGoalAndNumber | backend/src/models/GoalContribution.js:77-84 | the row with that number of that goal, or null exactly when no row has it |
| GoalContributions.FindByContribution | backend/src/models/GoalContribution.js:46-57 | the goal's rows in reverse insertion order |
| GoalContributions.FindByContributionOrder | backend/src/models/GoalContribution.js:48-53 | the listing is strictly descending by number (`ORDER BY nro_contribution DESC`), is a permutation of the rows and has the same total |
| GoalContributions.Without | backend/src/models/GoalContribution.js:109-112 | the `DELETE ... WHERE goal_id AND nro` leaves exactly the rows with another number |
| GoalContributions.TotalWithout | backend/src/models/GoalContribution.js:103-112 | deleting the found row takes exactly that row's amount off the sum of the goal's amounts |
| GoalContributions.WithoutAbsent | backend/src/models/GoalContribution.js:99-100 | deleting a number no row has removes nothing |
| GoalContributions.WithoutAscending | backend/src/models/GoalContribution.js:109-112 | removing a row keeps the remaining numbers strictly ascending |
| GoalContributions.TotalAppend | backend/src/models/Goals.js:51-57 | appending a row adds its amount to the sum |
| GoalContributions.TotalOfReverse | backend/src/models/GoalContribution.js:46-57 | the sum of the amounts does not depend on the listing order |
| Goals.GoalStore.Create | backend/src/models/Goals.js:22-38 | a new goal with a fresh id, the caller's owner id, `monto_objetivo` as `parseFloat` reads it, `monto_actual` 0 and an empty ledger; nothing else changes and the ledger invariant holds |
| Goals.GoalStore.CreateContribution | backend/src/models/GoalContribution.js:15-43 | for an existing goal, appends `(goal_id, MAX+1, monto)` and returns exactly that row; for a missing goal the insert fails and nothing changes; other goals' rows are untouched |
| Goals.GoalStore.AddContribution | backend/src/models/Goals.js:42-71 | a non-positive amount is refused before any change; otherwise one numbered row is appended and `monto_actual` rises by the amount; a refused insert (no such goal) changes nothing; `monto_actual` stays the sum of the goal's amounts |
| Goals.GoalStore.DeleteContribution | backend/src/models/GoalContribution.js:88-124 | "Ahorro no encontrado" for a missing goal, "Contribución no encontrada" for a missing row, both changing nothing; on success `monto_actual` drops by exactly that row's amount and only that row is removed; the ledger invariant is kept |
| Goals.GoalStore.Update | backend/src/models/Goals.js:75-123 | throws "No hay campos para actualizar" and writes nothing iff no updatable column is defined; otherwise overwrites just the defined columns, answers the object after `Object.assign`, and leaves `monto_actual` and the ledger as they were |
| Goals.ReplaceGoal | backend/src/models/Goals.js:51-67 | replacing a goal and its rows by a balanced pair keeps both tables shaped and balanced |
| Goals.RemoveContribution | backend/src/models/GoalContribution.js:103-112 | decrementing by the found row's amount and deleting that row keeps the tables shaped and balanced |
| Goals.UpdateNeverWritesMontoActual | backend/src/models/Goals.js:81-104 | no statement `update` builds contains `monto_actual = ?`, whatever the body |
| Goals.ResponseEchoesMontoActual | backend/src/models/Goals.js:116 | the object `update` answers carries every key of the body, including a `monto_actual` that was never written to the row |
| Goals.Assigned | backend/src/models/Goals.js:116 | after `Object.assign` every body key has the body's value and every other key keeps the goal's |
| Goals.ToJson | backend/src/models/Goals.js:222-236 | only the listed keys, each with the object's value |
| Goals.FindById | backend/src/models/Goals.js:143-155 | the goal with that id, or null exactly when there is none |
| Goals.FindByUserId | backend/src/models/Goals.js:174-186 | exactly the user's goals, or null when there are none |
| Goals.FindByName | backend/src/models/Goals.js:190-202 | exactly the user's goals whose name contains the text, or null when there are none |
| Goals.FindByState | backend/src/models/Goals.js:206-218 | exactly the user's goals in that state, one entry per matching goal, or null when there are none |
| GoalControllers.CreateGoalCheck | backend/src/controllers/goalControllers.js:11-25 | 400 unless `nombre`, `monto_objetivo` and `fecha_meta` are truthy; 400 with the validator's message when `fecha_meta` fails `validarFecha` without the year check; passes exactly when both hold |
| GoalControllers.CreateGoalAcceptsLaterYears | backend/src/controllers/goalControllers.js:18 | any calendar date passes, whatever its year, because the year check is not asked for |
| GoalControllers.CreateGoal | backend/src/controllers/goalControllers.js:7-52 | a refused request changes nothing; otherwise 201 and one new goal owned by the caller whose columns are exactly the body's `nombre` and `fecha_meta`, `descripcion` or null, `parseFloat(monto_objetivo)` and `estado` `activo`, with `monto_actual` 0 and no contributions |
| GoalControllers.UpdateGoalCheck | backend/src/controllers/goalControllers.js:59-82 | 404 for a missing goal, then 403 for another user's, then 400 for an empty body; passes exactly for the owner with a non-empty body |
| GoalControllers.UpdateGoal | backend/src/controllers/goalControllers.js:54-99 | the checks' reply with no change; 500 with no change for a body with no updatable column; otherwise 200, `Object.assign`'s object, and the goal's updatable columns take the body's values while every other goal is unchanged; no goal's `monto_actual` and no contribution ever changes |
| GoalControllers.GetGoalByState | backend/src/controllers/goalControllers.js:217-264 | 400 unless `estado` is `activo`, `cancelado` or `completado`; otherwise exactly the caller's goals in that state, as many as there are matching goals |
| GoalControllers.AddContributionCheck | backend/src/controllers/goalControllers.js:317-346 | 400 "must provide" for a missing goal id or a falsy amount (so 0 too); 400 for a negative amount; then 404, then 403; passes exactly for the owner's goal and a positive amount |
| GoalControllers.AmountCheckedBeforeLookup | backend/src/controllers/goalControllers.js:317-329 | a missing, zero or negative amount is refused with the same answer whatever the table holds |
| GoalControllers.AddContribution | backend/src/controllers/goalControllers.js:312-363 | a refused request changes nothing; otherwise 201, one contribution numbered `MAX+1` is appended and `monto_actual` rises by the amount |
| GoalControllers.DeleteContributionCheck | backend/src/controllers/goalControllers.js:372-400 | 400 without both ids, then goal 404, owner 403, contribution 404; passes exactly with the found row |
| GoalControllers.DeleteContribution | backend/src/controllers/goalControllers.js:367-416 | a refused request changes nothing; otherwise the answer carries the row read before deletion, that row is removed and `monto_actual` drops by its amount |
| GoalControllers.ReduceIsTotal | backend/src/controllers/goalControllers.js:441 | the `reduce` fold adds the same amounts as the ledger sum |
| GoalControllers.GetContributionsByGoal | backend/src/controllers/goalControllers.js:420-459 | 404, then 403; otherwise the goal's rows highest number first, their number and their sum |
| GoalControllers.ContributionTotalIsBalance | backend/src/controllers/goalControllers.js:440-450 | on a consistent store the reported `total` equals the goal's `monto_actual`, `count` is its number of contributions, and the listing is exactly its rows, strictly descending |
| DateValidator.CalendarYear | backend/src/utils/dataValidator.js:26-31 | February has 29 days exactly in Gregorian leap years; every month has 28 to 31 days; a year has 366 or 365 days |
| DateValidator.FormatParts | backend/src/utils/dataValidator.js:12 | `y-m-d` and `y/m/d` split back into their three components |
| DateValidator.SlashInFormat | backend/src/utils/dataValidator.js:12 | a formatted date contains `/` exactly when `/` is its separator, which picks the split |
| DateValidator.MaxDays | backend/src/utils/dataValidator.js:26-27 | `new Date(y, m, 0).getDate()` is a month length of 28 to 31 days exactly when both arguments are numbers and the day lies inside the range of a `Date`; otherwise NaN |
| DateValidator.ValidarFechaOfNumbers | backend/src/utils/dataValidator.js:11-39 | on three numbers the date is valid exactly when it is a calendar date (two-digit years as `new Date` reads them), or, past the range of a `Date`, has a month in 1..12 and a day from 1 on; and is not after the current year when the year check is on; a month outside 1..12 gets the month message |
| DateValidator.ValidarFechaInRange | backend/src/utils/dataValidator.js:11-39 | for years 0 to 275759 the date is valid exactly when it is a calendar date not after the current year when the year check is on |
| DateValidator.AcceptsAnyDayPastDateRange | backend/src/utils/dataValidator.js:26-38 | past the range of a `Date` the month length is NaN, so any day from 1 on is accepted without the year check |
| DateValidator.MonthCheckedFirst | backend/src/utils/dataValidator.js:21-23 | a numeric month outside 1..12 gets the month message whatever the day and year |
| DateValidator.YearCheckOnlyWhenAsked | backend/src/utils/dataValidator.js:11-36 | without the year check the current year plays no part; with it the only extra rejection is a later year |
| DateValidator.VerdictMessages | backend/src/utils/dataValidator.js:22-38 | a verdict is valid exactly when it carries "Fecha válida." |
| DateValidator.AcceptsText | backend/src/utils/dataValidator.js:14-21 | any text without digits, `/` or `-` is one component that parses to NaN, passes every comparison and is accepted, with or without the year check and in any current year |
| DateValidator.RangeChecks | backend/src/utils/dataValidator.js:42-58 | the start's failure without the year check is returned unchanged, then the end's with it; a range is valid exactly when both dates pass and the start is not after the end |
| DateValidator.EqualDatesRange | backend/src/utils/dataValidator.js:50-57 | a range from a date to itself is valid exactly when the date passes the year-checked validation |
| DateValidator.RangeOfNumbers | backend/src/utils/dataValidator.js:50-57 | for two calendar dates the range is valid exactly when the start does not fall on a later day |
| DateValidator.MonthFormatDay | backend/src/utils/dataValidator.js:13-38 | a year and a month pass the validation whatever the year (the missing day is NaN) and `new Date` reads them as the first of that month |
| DateValidator.MonthStartRange | backend/src/utils/dataValidator.js:42-57 | a range starting with a year and a month is ordered from the first of that month: it is refused for its order exactly when the end falls on an earlier day |
| Text.ParseIntAfterSpace | backend/src/utils/dataValidator.js:14-16 | `parseInt` skips any ECMAScript white space, including the Unicode space separators, before the digits of a number |
| Json.ParseFloat | backend/src/models/Transactions.js:37 | `parseFloat` gives a number or NaN (stored as `NULL`): a number is kept, and a value that is neither number nor text is NaN |
| Json.ParseFloatOfText | backend/src/models/Transactions.js:37 | the text of an integer and the integer itself parse to the same amount |
| UpdateBuilder.Written | backend/src/models/Goals.js:81-104 | the defined columns of the list, and only those |
| UpdateBuilder.BuildUpdate | backend/src/models/Goals.js:78-110 | the successive `push`es produce exactly the statement `Build` describes |
| UpdateBuilder.BuildFails | backend/src/models/Goals.js:106-108 | the update throws "No hay campos para actualizar" exactly when the body defines none of the columns |
| UpdateBuilder.BuildShape | backend/src/models/Goals.js:81-110 | one `col = ?` per defined column, in column order, bound to the body's value, with the id as the last value |
| UpdateBuilder.NeverWritten | backend/src/models/Categories.js:137-155 | a column outside the list (such as `tipo` for categories) is never written |
| UpdateBuilder.ClauseInjective | backend/src/models/Goals.js:81-104 | distinct columns give distinct clauses |
| UpdateBuilder.WrittenIsSubsequence | backend/src/models/Goals.js:81-104 | the written columns keep the list's order |
| UpdateBuilder.Overwrite | backend/src/models/Goals.js:112-113 | the row after the `UPDATE`: defined columns take the body's value, every other column keeps its own |
| UpdateBuilder.OverwriteFollowsStatement | backend/src/models/Goals.js:110-113 | each written column gets the value bound to its clause and no other column changes |
| Categories.VisibleIsUsable | backend/src/models/Categories.js:78-87 | where exactly the default categories have no owner, the finders' `is_default OR owner` filter agrees with the handlers' `owner null OR caller` rule; elsewhere they differ |
| Categories.CanDelete | backend/src/models/Categories.js:208-227 | false for a default category; otherwise true exactly when the count is 0; any error gives false |
| Transactions.CanDeleteOfTable | backend/src/models/Categories.js:208-227 | with the count taken from the transactions table, `canDelete` holds exactly for a custom category that no transaction refers to |
| Categories.CountGuardNeverFires | backend/src/models/Categories.js:185-191 | the un-aliased `COUNT(*)` row has no `count` key, so the guard never refuses, whatever the count |
| Categories.UpdateStatement | backend/src/models/Categories.js:126-161 | a default category throws before any field is looked at; otherwise "No hay campos para actualizar" iff no updatable key; `tipo` and `usuario_id` are never written |
| Categories.CategoryStore.Create | backend/src/models/Categories.js:17-33 | a new, owned, non-default category with a fresh id; nothing else changes |
| Categories.CategoryStore.Update | backend/src/models/Categories.js:126-174 | throws what `UpdateStatement` throws and changes nothing; otherwise overwrites the defined columns of that row only |
| Categories.CategoryStore.Delete | backend/src/models/Categories.js:178-204 | a default category throws and nothing is deleted; any other is removed, whatever its transactions |
| Categories.ToJson | backend/src/models/Categories.js:231-243 | the object's own keys among the listed ones, with their values |
| Categories.FindById | backend/src/models/Categories.js:37-53 | the category with that id, or null exactly when there is none |
| Categories.UseCheck | backend/src/models/Budgets.js:25-32 | fails with the caller's "does not exist" text for a missing category and "No tienes permisos" for another user's; succeeds with the category exactly when it exists and is default or the user's |
| Categories.GetAvailableForUser | backend/src/models/Categories.js:76-92 | exactly the default and the user's own categories, or null when there are none |
| Categories.FindByUserAndType | backend/src/models/Categories.js:96-108 | exactly the visible categories of that type, ordered by `nombre` ascending; an empty list, never null |
| Categories.CreatedIsListed | backend/src/models/Categories.js:17-33 | a category its owner has just created is among those both finders return |
| CategoryControllers.GetCategories | backend/src/controllers/categoryControllers.js:5-25 | the default and the caller's categories; when there are none the finder's null makes `.map` throw and the answer is 500 |
| CategoryControllers.GetCategoriesByType | backend/src/controllers/categoryControllers.js:27-64 | 400 for a missing type, then 400 for one other than `ingreso`/`gasto`; otherwise exactly the visible categories of that type |
| CategoryControllers.CreateCategoryCheck | backend/src/controllers/categoryControllers.js:70-82 | 400 unless `nombre` and `tipo` are given and `tipo` is `ingreso` or `gasto` |
| CategoryControllers.CreateCategory | backend/src/controllers/categoryControllers.js:66-109 | a refused request changes nothing; otherwise 201 and a category owned by the caller with `descripcion` null, `color` `#007bff` and `icon` `category` by default, which the type finder then lists |
| CategoryControllers.ChangeCheck | backend/src/controllers/categoryControllers.js:118-137 | 404, then 403 when the owner is neither null nor the caller, then 403 for a default category; passes exactly for a usable custom category |
| CategoryControllers.UpdateCategoryCheck | backend/src/controllers/categoryControllers.js:118-137 | `updateCategory`'s 404/403/403 order |
| CategoryControllers.DeleteCategoryCheck | backend/src/controllers/categoryControllers.js:166-187 | `deleteCategory`'s 404/403/403 order |
| CategoryControllers.UpdateAfterCheck | backend/src/controllers/categoryControllers.js:118-139 | once the checks pass, `category.update` can only fail for want of fields |
| CategoryControllers.UpdateCategory | backend/src/controllers/categoryControllers.js:111-157 | the checks' reply with no change, or the overwritten row; no category is added or removed and no `tipo` changes |
| CategoryControllers.DeleteCategory | backend/src/controllers/categoryControllers.js:159-203 | the checks' reply with no change, or the row removed |
| CategoryControllers.DeleteIgnoresCanDelete | backend/src/controllers/categoryControllers.js:166-187 | a custom category its owner uses in transactions passes every check and is deleted although `canDelete` says no |
| Transactions.CategoryCheck | backend/src/models/Transactions.js:24-32 | fails for a missing category, then for one neither default nor the user's; succeeds exactly otherwise |
| Transactions.UpdateStatement | backend/src/models/Transactions.js:154-192 | a defined `categoria_id` is subject to the category rule; otherwise "No hay campos para actualizar" iff no updatable key, else the sparse statement; `usuario_id` is never written |
| Transactions.TransactionStore.Create | backend/src/models/Transactions.js:19-48 | refuses a missing or foreign category before inserting; otherwise a new row with a fresh id holding the given fields, with `monto` as `parseFloat` reads it |
| Transactions.TransactionStore.Update | backend/src/models/Transactions.js:148-205 | throws what `UpdateStatement` throws and changes nothing; otherwise overwrites the defined columns of that row only |
| Transactions.TransactionStore.Delete | backend/src/models/Transactions.js:209-221 | removes that row and nothing else |
| Transactions.CreateKeepsCategoriesUsable | backend/src/models/Transactions.js:24-38 | inserting after a passed category check keeps every row's category usable by its owner |
| Transactions.UpdateKeepsCategoriesUsable | backend/src/models/Transactions.js:174-198 | a successful update keeps every row's category usable by its owner |
| Transactions.ToJson | backend/src/models/Transactions.js:225-237 | the object's own keys among the listed ones, with their values |
| Transactions.FindById | backend/src/models/Transactions.js:51-67 | the row with that id, or null exactly when there is none |
| Transactions.FindByUserId | backend/src/models/Transactions.js:90-106 | exactly the user's rows, one entry per matching row, or null when there are none |
| Transactions.FindByUserAndType | backend/src/models/Transactions.js:109-125 | exactly the user's rows of that type, one entry per matching row, or null |
| Transactions.FindByUserAndColumn | backend/src/models/Transactions.js:109-144 | the user's rows whose given column holds the value, one entry per matching row, or null exactly when there are none |
| Transactions.FindByUserAndCategory | backend/src/models/Transactions.js:128-144 | exactly the user's rows of that category, one entry per matching row, or null |
| Transactions.DatedRows | backend/src/models/Transactions.js:252-254 | exactly the user's rows dated within the bounds, inclusive, newest first, one entry per matching row |
| Transactions.FindByDateRange | backend/src/models/Transactions.js:241-265 | fails for a missing bound, then for a start after the end; otherwise the user's rows in the range newest first, one entry per matching row, or null when there are none |
| Transactions.ValidatedRangeIsSearchable | backend/src/models/Transactions.js:243-249 | a range `validarRangoFechas` accepts with both bounds given passes `findByDateRange`'s own guards; two empty bounds pass the validator but not the finder |
| Transactions.GetTotalByUser | backend/src/models/Transactions.js:268-294 | income and expense are the sums of the user's amounts of each type (0 when none) and the balance is their difference |
| Transactions.GetTotalByUserAndType | backend/src/models/Transactions.js:297-319 | refuses a type other than `ingreso`/`gasto`; otherwise the sum of the user's amounts of that type |
| Transactions.BalanceOfTypeTotals | backend/src/models/Transactions.js:268-319 | the balance equals the income total minus the expense total of the per-type query |
| Transactions.TotalsWithoutRows | backend/src/models/Transactions.js:270-289 | a user without rows has every total 0 |
| Transactions.CreatedIncomeRaisesBalance | backend/src/models/Transactions.js:270-289 | a new income row raises the income total and the balance by its amount and leaves expenses as they were |
| Transactions.CreatedTextIncomeRaisesBalance | backend/src/models/Transactions.js:37 | an income created from the text of an integer raises the income total and the balance by that integer |
| Transactions.GetMonthlyBalance | backend/src/models/Transactions.js:322-364 | refuses a missing (falsy) user, year or month, then a month outside 1..12; the year check never fires; otherwise the month's income, expense and balance |
| TransactionControllers.CreateTransaction | backend/src/controllers/transactionControllers.js:6-43 | 400 unless all five fields are given, with no change; 500 with no change when the category check refuses; otherwise 201 and one new row owned by the caller whose columns are exactly the body's `tipo`, `descripcion`, `parseFloat(monto)`, `fecha` and numeric `categoria_id` |
| TransactionControllers.UpdateTransactionCheck | backend/src/controllers/transactionControllers.js:50-71 | 404, then 403 for another user's row, then 400 for an empty body; passes exactly for the owner with a non-empty body |
| TransactionControllers.UpdateTransaction | backend/src/controllers/transactionControllers.js:45-91 | the checks' reply with no change; 500 with no change when `update` throws; otherwise 200, `Object.assign`'s object, and the row's updatable columns take the body's values while every other row is unchanged |
| TransactionControllers.DeleteTransactionCheck | backend/src/controllers/transactionControllers.js:98-114 | 404, then 403; passes exactly for the owner |
| TransactionControllers.DeleteTransaction | backend/src/controllers/transactionControllers.js:93-129 | the checks' reply with no change, or that row removed |
| TransactionControllers.GetTransactionById | backend/src/controllers/transactionControllers.js:131-172 | 400 without an id, 404, 403; otherwise the caller's row |
| TransactionControllers.GetTransactionsByUser | backend/src/controllers/transactionControllers.js:174-207 | exactly the caller's rows, and a count equal to the number of the caller's rows; none is a 200 with count 0 |
| TransactionControllers.GetTransactionsByUserAndType | backend/src/controllers/transactionControllers.js:209-259 | 400 "required" for a missing type and 400 "invalid" for one other than `ingreso`/`gasto`; otherwise exactly the caller's rows of that type, and a count equal to the number of such rows |
| TransactionControllers.GetTransactionsByUserAndCategory | backend/src/controllers/transactionControllers.js:261-304 | 400 without `categoria_id`; otherwise exactly the caller's rows of that category, and a count equal to the number of such rows |
| TransactionControllers.GetTransactionsByDateRange | backend/src/controllers/transactionControllers.js:306-353 | 500 when a bound is missing, 400 with the validator's message when `validarRangoFechas` fails; otherwise exactly the caller's rows in the range, newest first, and a count equal to the number of such rows |
| Budgets.UpdateStatement | backend/src/models/Budgets.js:56-104 | a defined `categoria_id` is subject to the category rule; otherwise "No hay campos para actualizar" iff no updatable key, else the sparse statement; `usuario_id` is never written |
| Budgets.BudgetStore.Create | backend/src/models/Budgets.js:21-46 | refuses a missing or foreign category before inserting; an undefined `periodo` or `estado` makes the insert fail; otherwise a new row with a fresh id and `monto` as `parseFloat` reads it |
| Budgets.BudgetStore.Update | backend/src/models/Budgets.js:50-119 | throws what `UpdateStatement` throws and changes nothing; otherwise overwrites the defined columns of that row only |
| Budgets.BudgetStore.Delete | backend/src/models/Budgets.js:123-135 | removes that row and nothing else |
| Budgets.CreateKeepsCategoriesUsable | backend/src/models/Budgets.js:25-38 | inserting after a passed category check keeps every row's category usable by its owner |
| Budgets.UpdateKeepsCategoriesUsable | backend/src/models/Budgets.js:87-112 | a successful update keeps every row's category usable by its owner |
| Budgets.ToJson | backend/src/models/Budgets.js:238-251 | the answer holds exactly the object's keys among `id`, `nombre`, `inicio`, `fin`, `monto`, `estado`, `categoria_id`, `usuario_id`, `created_at` and `updated_at`, each with its value; `periodo` is never in it |
| Budgets.FindById | backend/src/models/Budgets.js:139-155 | the row with that id, or null exactly when there is none |
| Budgets.FindByUserId | backend/src/models/Budgets.js:178-194 | exactly the user's rows, one entry per matching row, or null when there are none |
| Budgets.FindByName | backend/src/models/Budgets.js:198-214 | exactly the user's budgets whose name contains the text, one entry per matching row, or null |
| Budgets.FindByNameInIdOrder | backend/src/models/Budgets.js:201-203 | the budgets found are in ascending id order |
| Budgets.FindByState | backend/src/models/Budgets.js:218-234 | exactly the user's rows whose `estado` compares equal to the number, one entry per matching row, or null |
| BudgetControllers.CreateBudgetCheck | backend/src/controllers/budgetControllers.js:10-24 | 400 unless all five fields are given, then 400 with the validator's message when `validarRangoFechas(inicio, fin)` fails (500 for a non-text date); passes exactly when both hold |
| BudgetControllers.CreateBudget | backend/src/controllers/budgetControllers.js:6-54 | a refused request changes nothing; 201 exactly when the category check passes and `periodo` and `estado` are given; then one new row owned by the caller whose columns are exactly the body's `nombre`, `periodo`, `inicio`, `fin`, `parseFloat(monto)`, `estado` and numeric `categoria_id`, answered through `toJSON` and listed for its owner from then on; any other answer is a 500 carrying the category check's message, or the driver's undefined-bind message when `periodo` or `estado` is missing |
| BudgetControllers.UpdateBudgetCheck | backend/src/controllers/budgetControllers.js:62-83 | 404, then 403 for another user's budget, then 400 for an empty body |
| BudgetControllers.UpdateBudget | backend/src/controllers/budgetControllers.js:57-102 | the checks' reply with no change; 500 with the thrown message and no change when `update` throws; otherwise 200, `Object.assign`'s object, and the row's updatable columns take the body's values while every other row is unchanged |
| BudgetControllers.DeleteBudgetCheck | backend/src/controllers/budgetControllers.js:110-126 | 404, then 403; passes exactly for the owner |
| BudgetControllers.DeleteBudget | backend/src/controllers/budgetControllers.js:105-140 | the checks' reply with no change, or that row removed |
| BudgetControllers.GetBudgetById | backend/src/controllers/budgetControllers.js:143-184 | 400 without an id, 404, 403; otherwise the caller's budget without `periodo` |
| BudgetControllers.GetBudgetByName | backend/src/controllers/budgetControllers.js:187-229 | 400 without a name, 404 when nothing matches, and 403 for every match, because the owner is read off the list |
| BudgetControllers.GetBudgetByUser | backend/src/controllers/budgetControllers.js:232-264 | exactly the caller's budgets, and a count equal to the number of the caller's budgets; none is a 200 with count 0 |
| BudgetControllers.StateNumber | backend/src/controllers/budgetControllers.js:271-278 | the text `true` maps to 1 and anything else to 0 |
| BudgetControllers.GetBudgetByState | backend/src/controllers/budgetControllers.js:266-310 | 400 without `estado`; otherwise exactly the caller's budgets whose state compares equal to the mapped number, and a count equal to the number of such budgets |
| BudgetControllers.AnyOtherStateMeansInactive | backend/src/controllers/budgetControllers.js:276-278 | any non-empty `estado` other than `true` gives the same answer as `false` |
| AuthControllers.IsEmailMatchesPattern | backend/src/controllers/authControllers.js:19-24 | the scan accepts exactly the addresses matching `^[a-zA-Z0-9._%+-]+@[a-zA-Z0-9.-]+\.[a-zA-Z]{2,}$` |
| AuthControllers.EmailOfParts | backend/src/controllers/authControllers.js:19-24 | local part, `@`, domain, `.` and at least two letters always match |
| AuthControllers.SecondAtRefused | backend/src/controllers/authControllers.js:19-24 | an address with two `@` never matches |
| AuthControllers.ShortTopLevelDomainRefused | backend/src/controllers/authControllers.js:19-24 | an address whose last dot has fewer than two characters after it never matches |
| AuthControllers.FirstIndex | backend/src/controllers/authControllers.js:19-24 | the first position of the character, or none exactly when it is absent |
| AuthControllers.LastIndex | backend/src/controllers/authControllers.js:19-24 | the last position of the character, or none exactly when it is absent |
| AuthControllers.FindByEmail | backend/src/models/User.js:60-76 | an account with that e-mail, or null exactly when there is none |
| AuthControllers.FindByUsername | backend/src/models/User.js:80-96 | an account with that username, or null exactly when there is none |
| AuthControllers.ToJson | backend/src/models/User.js:148-151 | exactly the keys id, username, name and e-mail: the password hash is never in the answer |
| AuthControllers.RegisterCheck | backend/src/controllers/authControllers.js:12-50 | 400 for missing fields, then a bad e-mail, then a text password whose `length` (UTF-16 code units) is under 6; 409 for a taken e-mail before a taken username; passes exactly when none applies |
| AuthControllers.AstralPasswordLongEnough | backend/src/controllers/authControllers.js:27-32 | a password of three characters beyond U+FFFF has `length` 6 and is not refused as too short |
| AuthControllers.Register | backend/src/controllers/authControllers.js:7-79 | a refused request changes nothing; otherwise 201 and one new account holding the hashed password, which `findByEmail` then finds |
| AuthControllers.UserStore.Create | backend/src/models/User.js:16-36 | the account is stored under the next id with the given fields; no other account changes |
| AuthControllers.UserStore.SetProfile | backend/src/models/User.js:111-131 | only the name and e-mail of that one account change, and the updated account is answered |
| AuthControllers.FoundIsOnlyMatch | backend/src/models/User.js:60-76 | a new account whose e-mail no one has is the one `findByEmail` finds |
| AuthControllers.OnlyMatchFound | backend/src/models/User.js:60-76 | when exactly one account has an e-mail, `findByEmail` answers that account |
| AuthControllers.RegisterKeepsAccountsUnique | backend/src/controllers/authControllers.js:35-53 | registering keeps e-mails and usernames unique |
| AuthControllers.Login | backend/src/controllers/authControllers.js:82-136 | 400 without both fields; an unknown e-mail and a wrong password get the same 401; success exactly for a known e-mail whose hash matches |
| AuthControllers.GetProfile | backend/src/controllers/authControllers.js:139-162 | 404 for a missing account; otherwise the account's `toJSON()`: id, username, name and e-mail, never the password |
| AuthControllers.UpdateProfileCheck | backend/src/controllers/authControllers.js:170-204 | 400 without `name` and `email`, then a bad e-mail; 404 for a missing account; 409 only when the e-mail changed and another account has it |
| AuthControllers.UpdateProfile | backend/src/controllers/authControllers.js:165-225 | a refused request changes nothing; otherwise only the caller's name and e-mail change |
| AuthControllers.UpdateProfileKeepsAccountsUnique | backend/src/controllers/authControllers.js:196-207 | updating a profile keeps e-mails and usernames unique |
| AuthMiddleware.TokenOf | backend/src/middleware/auth.js:29 | element 1 of the split on spaces: the text after `Bearer ` up to the next space, containing none |
| AuthMiddleware.AuthenticateToken | backend/src/middleware/auth.js:5-77 | 401 for a missing header, then for one not starting with the case-sensitive `Bearer `, then for an empty token; `req.user` is set to the claims exactly when `verify` accepts the token; every refusal is 401 |
| AuthMiddleware.BearerRoundTrip | backend/src/middleware/auth.js:29-76 | a token without spaces sent as `Bearer <token>` reaches `verify` unchanged and its verdict alone decides the outcome |
| AuthMiddleware.EmptyTokenRefused | backend/src/middleware/auth.js:29-37 | `Bearer ` alone and `Bearer` followed by two spaces are refused before `verify` is asked |
| AuthMiddleware.SchemeIsCaseSensitive | backend/src/middleware/auth.js:20-25 | `bearer <token>` is refused for its format whatever `verify` says |
| Http.ListingOf | backend/src/controllers/transactionControllers.js:180-189 | no rows gives the "none found" message with count 0; otherwise the rows and their number |
| Text.Utf16Length | backend/src/controllers/authControllers.js:27 | a string's `length` counts one code unit per character up to U+FFFF and two beyond it: between its character count and twice that, and equal to the character count exactly when no character is beyond U+FFFF |
| Tables.Lookup | backend/src/models/Budgets.js:139-155 | a `SELECT ... WHERE id = ?` answered as the row under that key, or null exactly when there is none |
| Tables.Find | backend/src/models/Goals.js:174-186 | a `SELECT ... WHERE` answered as the matching rows, one entry per matching key, or null exactly when none matches |
| Tables.SelectInKeyOrder | backend/src/models/Budgets.js:201-203 | rows that carry their own keys are selected in ascending key order |

## Left out

- SQL text, the mysql2 pool and connections: tables are in-memory maps, and a statement is modelled by the rows it affects.
- Concurrency and isolation: every operation is sequential and atomic. The `MAX + 1` read and the insert of `Goal.addContribution` run on different connections in the source, so duplicate numbers under concurrent requests are possible there; the model claims nothing about them.
- Floating point: amounts are integers (as in cents), and the float `reduce` of `getContributionsByGoal` is exact integer arithmetic.
- Json.ParseFloat: reads a text only up to the end of its leading integer, so a fraction (`12.5`), an exponent (`1e3`), `.5` and `Infinity` are not read as `parseFloat` reads them. A NaN amount is stored as `NULL`; what mysql2 and MySQL do with a NaN parameter is not modelled.
- Text amounts in the contribution handlers: `goal_id` and `monto` reach the ledger handlers as numbers (`Option<int>`, with `None` for `undefined`).
- Clocks: `NOW()` timestamps are not modelled, and `new Date().getFullYear()` is the `currentYear` parameter.
- Date parsing in `validarRangoFechas`: `new Date(text)` is modelled as the (year, month, day) the text names, compared in that order, with a missing month or day read as 1 as in the ISO 8601 date-only forms. Not modelled:
  - time-zone differences between `-` and `/` texts;
  - V8's own reading of texts outside the ISO format, such as two-digit years, components with trailing characters (`2024-03-15x`, an invalid `Date`) or a `/` text with fewer than three parts;
  - date-time texts such as `2024-03-15T10:00`: they pass `validarFecha`, `DateValidator.DayOf` reads only their day, and the time of day that `new Date` keeps does not take part in the comparison.
- `jwt.verify`, `jwt.sign` and bcrypt are oracles: the `verify`, `hash` and `matches` parameters. A bcrypt throw on a non-text password is not modelled.
- `User.js` is not part of this model beyond its rows, `findByEmail`, `findByUsername`, `update` of name and e-mail, and `toJSON`.
- MySQL type coercion and collation:
  - e-mail, username and `LIKE` comparisons are case-sensitive in the model (MySQL's default collation is not);
  - only numeric text ids are converted to numbers;
  - `estado` compares as `Budgets.EstadoNumber` describes.
- Categories.FindByUserAndType: `ORDER BY nombre` is code-point order in the model, so `Ahorro` comes before `agua`; MySQL's default case-insensitive collation puts `agua` first.
- `LIKE` wildcards inside a searched name (`%`, `_`) are treated as ordinary characters.
- The texts mysql2 and V8 throw for an `undefined` bind parameter, or for a date that is not text, appear only as error messages, with the wording of those libraries.
- The in-memory model objects are values: `Object.assign(this, …)` is the returned object.
- JSON response shaping beyond status and message, and console logging.
  - The key names of the `data` payloads are not modelled; for example, `getBudgetByUser` answers under `budgets` for an empty list and under `budget` otherwise.
- Express routing and `server.js`: which routes are mounted and in which order.
- The empty stub handlers `getTotalByUser`, `getTotalByUserAndType` and `getMonthlyBalance` of `transactionControllers.js`: they do nothing but catch.
- Goal deletion, `findAll` of every model, and the handlers `deleteGoal`, `getGoalById`, `getGoalByUser` and `getGoalByName`. These depend on a schema cascade that is not shown, or only wrap a finder that is modelled.
- Schema defaults: `Goal.create` gives `monto_actual` 0 and a missing `estado` the value `activo`.
- Foreign keys: a contribution for a missing goal is assumed to be refused by the insert.
- Goals.FindByUserId, Goals.FindByName, Goals.FindByState: no order is stated, because the source's queries have no `ORDER BY`.
- AuthControllers.FindByEmail: compares e-mails exactly; MySQL's case-insensitive comparison is not modelled.
- AuthControllers.FindByUsername: compares usernames exactly, so `AuthControllers.RegisterCheck` lets "alice" register beside an existing "Alice", which MySQL's case-insensitive comparison would find and the source would refuse with 409.
- UpdateBuilder.Overwrite: an updated column holds the request's value as sent, while MySQL converts it to the column's type (`"150"` stored in `monto` becomes 150). So after such an update `Transactions.GetTotalByUser` counts a text `monto` as 0 (through `Json.AmountOf`), and a text `categoria_id` never matches a category's number in `Transactions.FindByUserAndCategory`.
- Goals.GoalStore.AddContribution: a failure of the `UPDATE` that follows the insert (a lost connection, say) is not modelled. The insert runs on the pool, outside the transaction, so the source would keep that contribution while `monto_actual` stays behind.
