# Geopolitical dashboard: verified model of the item API, the analysis query, the table models and the chart helpers

This project is a Dafny model of the logic in a small full-stack prototype. The prototype is a
dashboard about India's strategic position plus a CRUD form over "strategic items". The model
covers four parts:

- **`/items` handlers** (`items_routes.dfy`, module `ItemsRoutes`). The Express routes over the
  Mongoose `Item` collection are a class `ItemStore`. It holds a `map` from id to document and a
  counter that supplies fresh ids. Each handler is a method that returns a status code and a JSON
  reply, and its contract states the status, the reply and the new store:
  - POST answers 201 and stores the body as given, with no validation.
  - GET answers 200 with every document, newest first. An empty store also answers 200.
  - GET, PUT and DELETE by id answer 404 when the id is absent, and then change nothing.
  - Anything the driver throws answers 500 with the error's message. That includes an id
    parameter that is not an ObjectId.
- **`/analysis` handler** (`analysis_route.dfy`, module `AnalysisRoute`). This is a pure pipeline:
  1. Default `timeRange` to "decade" and `metric` to "trade".
  2. Look back 10 years for "decade" and 5 years for anything else.
  3. Select the records with `year >= startYear`. There is no upper bound.
  4. Sort the selected records by year, ascending.
  5. Reduce each record to `{year, [metric]}`.
  6. Answer 404 exactly when nothing was selected.

  The current year is a parameter. The generic stable sort lives in `sorting.dfy` (module `Sorting`).
- **Sequelize models** (`field_checks.dfy`, `item_model.dfy`, `user_model.dfy`).
  - The attribute rules are pure predicates: `allowNull: false`, `notEmpty` and `len: [min, max]`.
  - Each model has a table class whose `Create` does four things. It validates every attribute and
    reports all failing ones together. It enforces the unique `username` and `email` columns of
    `User`. It assigns the next auto-increment id. It defaults `createdAt` to the time of the call.
  - The `User` table's invariant states that no two rows share a username or an email, and
    `Create` preserves it.
  - The email-syntax check is a predicate that the table receives when it is constructed.
  - The unique indexes compare values under the column collation. The collation is a function
    that the table receives when it is constructed, so "Admin" collides with a stored "admin"
    under a case-insensitive one.
- **Chart helpers** (`chart_helpers.dfy`, module `ChartHelpers`):
  - `findPeakYear` is a reduce. It keeps the first entry with the largest value.
  - `calculateCAGR` has a guard (return 0 for fewer than two points). The model covers the guard
    and the operands the formula receives.
  - `generateData` builds a series of simulated points. The model covers the year skeleton. Each
    value is the `Math.floor` of the source expression, with the random draws as a parameter.

Clocks (`Date.now`, `getFullYear`), randomness (`Math.random`) and database failures are
parameters. A failure is a `fault: Option<string>`: `Some(message)` means the driver throws with
that message.

Three facts about the `/items` code shape the model:

- **No validation on `/items`.** The Mongoose schema (backend/routes.js:8-15) has no validators,
  so any body is stored, and no request is answered 400.
- **DELETE returns a message only.** It answers `{message: 'Item deleted'}`, not the deleted
  document (backend/routes.js:138).
- **No trimming.** Nothing trims input before it is stored.

Sequelize's `notEmpty` rejects values made only of whitespace, not just the empty string. So a
name of three spaces passes `len: [3, 100]` but is refused; `FieldChecks.BlankIsRefused` shows
this.

A "decade" window starts at `currentYear - 10`. Counted up to the current year, that is eleven
calendar years, while `generateData` produces ten points for "decade". The model states both as
written.

## Model

| member | source | states |
|---|---|---|
| `ItemsRoutes.NewItem` | backend/routes.js:28-29 | the saved document carries the body's name and description as given, under the new id, with `createdAt` defaulting to now; updating it with the same body changes nothing |
| `ItemsRoutes.Merge` | backend/routes.js:111-115 | an update keeps the id; each field the body carries replaces the stored one, and each field it does not carry keeps its stored value, so an empty body changes nothing |
| `ItemsRoutes.ItemStore.Create` | backend/routes.js:26-36 | 201 with `{message: 'Item created', item}`; the body is stored unvalidated under a fresh id; `createdAt` defaults to now; a thrown error answers 500 with its message and stores nothing |
| `ItemsRoutes.ItemStore.List` | backend/routes.js:39-49 | 200 with every stored document exactly once (as a multiset) in `createdAt`-descending order; an empty store answers 200 with `[]`, not 404; a thrown error answers 500 |
| `ItemsRoutes.ItemStore.Get` | backend/routes.js:91-105 | 200 with the stored document when the id is present, 404 `Item not found` when absent; a malformed id or a thrown error answers 500 and never reaches the 404 branch |
| `ItemsRoutes.ItemStore.Update` | backend/routes.js:108-126 | 404 and no change when the id is absent; otherwise the body is merged into the document under the same id and the answer is 200 with the post-update document (`new: true`); 500 on a thrown error or a malformed id |
| `ItemsRoutes.ItemStore.Delete` | backend/routes.js:129-143 | 404 and no change when absent; otherwise exactly that id is removed and the answer is 200 with only `{message: 'Item deleted'}`; 500 on a thrown error or a malformed id |
| `ItemsRoutes.ListingIsUniqueWithoutTies` | backend/routes.js:42 | two newest-first listings of the same store are equal when no two documents share a `createdAt`, so reading twice with no write between gives the same array |
| `ItemsRoutes.ListingOfThree` | backend/routes.js:42 | documents created at t1 < t2 < t3 are listed as [t3, t2, t1] |
| `ItemsRoutes.CreateThenGet` | backend/routes.js:94-100 | reading back the id a create answered with gives 200 with the created document, whose name and description are the body's |
| `ItemsRoutes.DeleteThenGet` | backend/routes.js:129-138 | after a delete, reading that id answers 404; every other document is still stored, unchanged |
| `ItemsRoutes.UpdateThenGet` | backend/routes.js:111-121 | after an update of a present id, reading it gives exactly the document the update answered with, under the same id; an absent id answers 404 to both |
| `Sorting.SortByKey` | backend/routes.js:63-65 | the result is a permutation (same multiset) of the input in ascending key order |
| `Sorting.AscendingPermutationUnique` | backend/routes.js:42 | two ascending permutations of the same elements are equal when no two distinct elements share a key |
| `AnalysisRoute.Analysis` | backend/routes.js:52-88 | a thrown error answers 500 with its message; otherwise the answer is 404 exactly when every record is older than the start year, and else 200 with a non-empty list of points |
| `AnalysisRoute.InWindow` | backend/routes.js:63-65 | the records with `year >= startYear`, each as often as stored, and no others |
| `AnalysisRoute.WindowEmptyIff` | backend/routes.js:67-72 | the window is empty exactly when every record's year is below the start year |
| `AnalysisRoute.Window` | backend/routes.js:63-65 | the window is in ascending year order and holds exactly the in-range records, with their multiplicities |
| `AnalysisRoute.Project` | backend/routes.js:78-81 | one point per record, in the same order, carrying the record's year, the metric name and the record's field of that name (absent when the record has none) |
| `AnalysisRoute.LaterYearsSelected` | backend/routes.js:63-65 | there is no upper bound: a record dated after the current year is selected |
| `AnalysisRoute.AnalysisAnswer` | backend/routes.js:78-83 | a 200 answer has one point per selected record, in order, each `{year, [metric]: record[metric]}` with the metric defaulting to "trade"; the point years ascend |
| `AnalysisRoute.StartYearCases` | backend/routes.js:54-60 | the start year is `currentYear - 10` for an absent or "decade" time range and `currentYear - 5` for any other |
| `FieldChecks.NotEmpty` | backend/db/models/Item.js:15 | a value that passes `notEmpty` is not the empty string |
| `FieldChecks.NotEmptyConcat` | backend/db/models/Item.js:15 | a value passes `notEmpty` exactly when one of its parts does, so whitespace around a blank value never makes it pass |
| `FieldChecks.Len` | backend/db/models/Item.js:16 | both bounds are included: a length equal to the minimum or the maximum passes, one outside them fails |
| `FieldChecks.RequiredTextMeans` | backend/db/models/Item.js:11-18 | a required `notEmpty`, `len`-bounded attribute is present, non-empty and within the bounds; whitespace alone is refused |
| `FieldChecks.BlankIsRefused` | backend/db/models/Item.js:15-16 | three spaces satisfy `len: [3, 100]` but fail `notEmpty` |
| `ItemModel.Violations` | backend/db/models/Item.js:11-34 | each attribute is reported exactly when its rule fails (name 3..100, description 10..1000, created_by 2..50, all required and not blank); nothing is reported exactly when all three hold together |
| `ItemModel.ItemTable.Create` | backend/db/models/Item.js:5-44 | a record is inserted only when all three attribute rules hold; it gets the next auto-increment id, which is fresh, and `createdAt` defaulting to now; a refused record changes nothing; every stored row satisfies the rules |
| `ItemModel.CreateTwice` | backend/db/models/Item.js:6-10 | two successful inserts get distinct ids and both rows are kept |
| `UserModel.Violations` | backend/db/models/User.js:11-27 | the username (required, not blank, 3..50) and the email (required, passes the email check) are each reported exactly when their rule fails |
| `UserModel.Conflicts` | backend/db/models/User.js:11-27 | the username or email column is reported exactly when a stored row holds a value that is equal under the column collation |
| `UserModel.InsertKeepsUnique` | backend/db/models/User.js:11-27 | inserting a row that collides with no unique column keeps usernames and emails unique under the collation |
| `UserModel.UserTable.Create` | backend/db/models/User.js:5-36 | validation failures are reported first and change nothing; a valid row whose username or email collates equal to a stored one is refused; otherwise it is inserted under a fresh auto-increment id with `createdAt` defaulting to now; the table invariant (rows valid, usernames and emails unique) is kept |
| `UserModel.DuplicateUsernameRefused` | backend/db/models/User.js:14 | a second create whose valid username collates equal to the stored one (such as a case variant under a case-insensitive collation) is refused by the unique index, and the table keeps only the first row |
| `ChartHelpers.EntryDeterminedByFields` | frontend/src/ExploratoryAnalysis.jsx:264-268 | a well-formed chart entry (no second `year` among its other fields) is determined by what `entry[name]` reads for every name, so each JavaScript object has one representation |
| `ChartHelpers.PeakIndex` | frontend/src/ExploratoryAnalysis.jsx:266 | the reduce keeps an entry of the array |
| `ChartHelpers.PeakIsMaximum` | frontend/src/ExploratoryAnalysis.jsx:266 | the kept entry's value is greater than or equal to every entry's value |
| `ChartHelpers.PeakIsFirst` | frontend/src/ExploratoryAnalysis.jsx:266 | on ties the earliest maximal entry wins: every earlier entry has a strictly smaller value |
| `ChartHelpers.PeakAmongDefined` | frontend/src/ExploratoryAnalysis.jsx:266 | for any entries: when `data[0]` lacks the metric the reduce keeps `data[0]`; when it has it, the kept entry has it too and is the first maximum among the entries that carry the metric |
| `ChartHelpers.PeakIndexIsFirstMaximum` | frontend/src/ExploratoryAnalysis.jsx:264-268 | the kept index is the first index of the maximum, and it is the only index with that property |
| `ChartHelpers.FindPeakYear` | frontend/src/ExploratoryAnalysis.jsx:264-268 | 'N/A' for missing or empty data; a year it answers is non-zero and is the year of some entry |
| `ChartHelpers.FindPeakYearSpec` | frontend/src/ExploratoryAnalysis.jsx:264-268 | 'N/A' for missing or empty data; otherwise the year of the first maximal entry, or 'N/A' when that year is falsy |
| `ChartHelpers.CagrOperands` | frontend/src/ExploratoryAnalysis.jsx:257-262 | 0 exactly when data is missing or has fewer than two points; otherwise start and end values that are never 0 and at least one period; a truthy first or last value is used as is, and a missing or zero one becomes exactly 1 (`|| 1`) |
| `ChartHelpers.GenerateData` | frontend/src/ExploratoryAnalysis.jsx:53-69 | with the guard as intended: every point carries the requested metric and a year no later than the current year |
| `ChartHelpers.GenerateDataAsWritten` | frontend/src/ExploratoryAnalysis.jsx:53-69 | as written: for trade, defense and alliances it gives the same points as the intended version; a name that is neither a metric nor inherited from `Object.prototype` gives null |
| `ChartHelpers.GenerateDataShape` | frontend/src/ExploratoryAnalysis.jsx:53-69 | null exactly for a metric other than trade, defense or alliances; otherwise 10 points for "decade" and 5 otherwise, in consecutive ascending years ending at the current year, each carrying only the requested metric |
| `ChartHelpers.SimulatedValueBounds` | frontend/src/ExploratoryAnalysis.jsx:64-67 | with a draw in [0, 1), point i's value lies in [base, base + variance * (i + 1)) |
| `ChartHelpers.InheritedNameEscapesGuard` | frontend/src/ExploratoryAnalysis.jsx:60 | as written, the metric "toString" passes the guard and yields a full series (10 points for "decade", 5 otherwise, point i in the year the series assigns it) whose values are all NaN, where the intended behaviour is null |

## Left out

- The `/health` route (backend/routes.js:21-23) answers a constant and has no logic to model.
- Logging (`console.log`, `console.error`) is output only.
- Mongoose internals are abstracted:
  - ObjectId generation is a counter.
  - The cast of a route parameter is the `Malformed` variant. Its error text is a plausible
    rendering of the driver's message.
  - Failed casts of body fields are covered by the `fault` parameter.
  - The `_id` and `__v` document fields, the other document properties and non-schema body keys
    are not represented.
  - An explicit `null` in a body is not distinguished from an absent key.
- `ItemsRoutes.Merge` models `findByIdAndUpdate`'s `$set` as "each schema field the body carries
  replaces the stored one". Update operators in the body (`$inc`, `$unset`) are not modelled.
- Concurrent requests are not modelled; each handler is one atomic step on the store.
- `AnalysisRoute.Window` orders records of equal year in their stored order. The database leaves
  that order unspecified, so the model fixes one admissible order.
- `/analysis` query parameters that Express parses as arrays or objects are not modelled.
- `AnalysisRoute.Field` gives no value for any document property other than the four schema
  fields. On a Mongoose document, names such as `_id`, `__v`, `id`, `isNew`, `_doc` and `modelName`
  also resolve to values; a `/analysis` metric naming one of them is treated like an unknown key.
- Numbers are exact reals and integers, not IEEE doubles. NaN and Infinity are not modelled.
- `ChartHelpers.CagrOperands` does not model the `Math.pow` and `toFixed` arithmetic of
  `calculateCAGR`, because it is floating point. It returns the operands that the formula receives.
- `ChartHelpers.PeakIsMaximum` assumes every entry carries the metric. The call site
  (frontend/src/ExploratoryAnalysis.jsx:244) does not guarantee that. After the metric select
  changes (:168), the component renders the previous metric's points until the refetch lands.
  After a failed fetch on a host other than localhost (:123), it keeps them for good. Then no
  entry carries the metric. Every comparison `curr[metric] > max[metric]` is false, so the reduce
  keeps `data[0]` and `findPeakYear` answers `data[0].year`. `ChartHelpers.PeakAmongDefined`
  proves that case, and the case where only some entries carry the metric.
- `ChartHelpers.PeakIsFirst` assumes every entry carries the metric. The other cases are covered
  by `ChartHelpers.PeakAmongDefined`, as above.
- `ChartHelpers.PeakIndexIsFirstMaximum` assumes every entry carries the metric. The other cases
  are covered by `ChartHelpers.PeakAmongDefined`, as above.
- `ChartHelpers.FindPeakYearSpec` states the non-empty case only when every entry carries the
  metric. The other cases are covered by `ChartHelpers.PeakAmongDefined`, as above.
- The `ExploratoryAnalysis` component body is left out:
  - state hooks, effects, fetch and axios calls, rendering;
  - the unresolved merge-conflict region (frontend/src/ExploratoryAnalysis.jsx:13-146), apart
    from `generateData`;
  - the fallback data generator inside the effect.
- `FieldChecks.Len` counts code points. The validator library also subtracts variation selectors
  and counts a surrogate pair as one; the subtraction is not modelled.
- The email-syntax check (`isEmail`) is not modelled. It is a parameter of the `User` table.
- `UserModel.Conflicts` takes the column collation as a parameter and does not define it. With
  `dialect` defaulting to `mysql` and no `charset` or `collate` set (backend/db/config.js:11),
  the database's default collation applies. MySQL's default collation ignores case and accents.
- `UserModel.UserTable.Create` reports every unique column that collides. MySQL reports only the
  first violated index. The model also leaves the auto-increment counter unchanged on a refused
  insert, where InnoDB may skip an id.
- `ChartHelpers.GenerateData` reads the current year once. The code calls
  `new Date().getFullYear()` for each point (frontend/src/ExploratoryAnalysis.jsx:63), so the
  model assumes no New Year passes during one call.
- `ItemModel.ItemTable.Create` models `create`, which runs the attribute validators. The only inserts
  in the code are the seed scripts' `Item.bulkCreate` (backend/scripts/seedMySqlItems.js:51). Without
  `validate: true`, `bulkCreate` skips the validators. The invariant that every stored row passes
  the rules therefore holds only for rows inserted through `create`.
- `UserModel.UserTable.Create` has the same limit. The seed script's `User.bulkCreate`
  (backend/scripts/seedMySqlUsers.js:37) skips the username and email validators. The unique
  indexes still apply there.
- `ItemModel.ItemTable.Create` uses an unbounded id counter. The `DataTypes.INTEGER` id column is a
  signed 32-bit integer, so once the counter reaches 2147483647 the next insert fails with a
  duplicate-key error. The model never fails for that reason. The same holds for
  `UserModel.UserTable.Create`.
- Database failures of the Sequelize tables (connection loss, timeouts) are not modelled.
- The code has no authentication, no `created_by` filter on the list and no creators listing,
  so none of them is modelled.
- Server bootstrap, connection setup and the seed and initialisation scripts are I/O only:
  `server.js`, `backend/server.js`, `backend/db/config.js`, `backend/db/models/index.js` and
  `backend/scripts/*`.

## Findings

| source | as written | input that shows it | evidently intended | confidence | as-written member | corrected member |
|---|---|---|---|---|---|---|
| frontend/src/ExploratoryAnalysis.jsx:60 | `if (!baseValues[metric]) return null` looks the metric up through the prototype chain, so inherited members of `Object.prototype` pass the guard, and `baseValues[metric].base` is then undefined | `generateData("toString", "decade")` returns 10 points whose values are NaN | null for every metric other than trade, defense and alliances | medium (JavaScript lookup semantics; not executed); latent, since nothing in the file calls `generateData` (it is only defined, at :53, on one side of the unresolved merge conflict) and the metric select (:171-173) offers only trade, defense and alliances | `ChartHelpers.InheritedNameEscapesGuard` | `ChartHelpers.GenerateDataShape` |
