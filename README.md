# Energy marketplace ledger, modelled in Dafny

The Energy-marketplace repository is a demonstration marketplace for a
decentralized energy grid. Consumers buy connections, producers list energy
for sale, and an administrator moves stored energy between regional energy
centers. This project models the backend's one piece of real logic: the
energy-center ledger. It covers the transfer handler `POST /centers/transfer`,
the two read routes beside it, and the start-up step that seeds the centers
table. It also models the producer and consumer registration and update
handlers, and two pieces of client logic from `App.jsx`: the connection-cost
quote and the guard before a transfer request.

Modules, one per source file:

- `Database` (`database.dfy`) holds the row shapes of the four tables and the
  `Db` class. `Db` holds those tables as fields: `energyCenters`, `producers`
  and `consumers` are maps keyed by id, and `transfers` is a sequence of rows
  in insertion order. The module also holds `seedEnergyCentersIfEmpty`.
- `Centers` (`centers.dfy`) is the transfer handler. `Validate` runs the five
  ordered checks. `Transfer` is the pure specification of one request against
  the ledger. `PostTransfer` is the imperative handler and is proved equal to
  `Transfer`. The module also proves conservation of total stored energy, the
  bounds invariant `0 <= stored <= capacity`, double entry (every center's
  `stored` is explained by the records appended), and the orderings of
  `GET /centers` and `GET /centers/transfers`.
- `Producers` (`producers.dfy`) and `Consumers` (`consumers.dfy`) hold
  `POST /` (check the required fields, default the numbers, insert) and
  `PUT /:id` (look up the row, merge the body field by field, overwrite).
- `App` (`app.dfy`) holds `calcConnectionCost`, with its nearest-center
  `reduce` and price formula, and the guard in `doTransfer`.
- Helpers: `Wrappers` (Option and Result), `TextOrder` (the order SQLite's
  BINARY collation gives TEXT: code-point lexicographic order) and `Body` (how
  the handlers read JSON body fields: `??`, truthiness, and
  `x !== undefined ? Number(x) : old`).

Representation choices:

- Amounts are exact `real`s.
- `Number(amount)` is `Amount`: either `Finite(v)`, or `NotFinite` for NaN or
  an infinity.
- A falsy transfer id (missing, `null`, `""`) is the empty string.
- Numeric body fields are `Undefined`, `Null` or `Num(v)`. `PUT` treats
  `undefined` and `null` differently, and `Number(null)` is 0.
- The ids a handler generates (UUID v4) and the timestamps it reads
  (`new Date().toISOString()`) are parameters. A new id is required not to be
  in its table yet.
- The real distance function `getDistance` is a parameter of type
  `(string, string) -> nat`.

Three behaviours of the code the model keeps:

- One joint `CenterNotFound` whether one or both centers are missing
  (backend/routes/centers.js:27-29).
- No fixed order among equal timestamps in `ORDER BY created_at DESC`
  (backend/routes/centers.js:67). The model picks the later insertion first.
- The two reads of the centers happen before the transaction
  (backend/routes/centers.js:24-25, 48). The handler is synchronous and runs
  in one process, so the model runs it as one sequential step (see "Left out").

## Model

| member | source | states |
|---|---|---|
| `Centers.Validate` | backend/routes/centers.js:16-38 | the five ordered checks pass exactly when the request is admissible: both ids present, the amount positive and finite, the centers distinct and both existing, the source holding at least the amount and the destination's free capacity at least the amount |
| `Centers.RejectionReasons` | backend/routes/centers.js:16-38 | each refusal fires exactly when every earlier check passed and its own condition fails: the payload first, then same-center, then not-found, then source before capacity |
| `Centers.Transfer` | backend/routes/centers.js:12-64 | a refused request changes neither table. An accepted one lowers the source's `stored` by exactly the amount and raises the destination's by exactly the amount. It changes no other field or center, keeps the key set, appends exactly one record equal to the request, and returns the post-state rows of both centers |
| `Centers.PostTransfer` | backend/routes/centers.js:12-64 | the imperative handler (early returns, two updates and an insert) gives the ledger and the answer `Transfer` specifies. It preserves total stored energy, the ledger invariant and unique record ids |
| `Centers.RejectionRepeats` | backend/routes/centers.js:16-38 | sending a refused request again gets the same refusal |
| `Centers.Adjust` | backend/routes/centers.js:49-50 | one `UPDATE ... SET stored = stored + ?` changes only the `stored` of the matching row, and changes nothing when no row matches |
| `Centers.AdjustTotal` | backend/routes/centers.js:49-50 | one update changes the total stored energy by exactly its delta, or by nothing when no row matches |
| `Centers.MoveConserves` | backend/routes/centers.js:48-54 | the debit and the credit together leave the total stored energy unchanged |
| `Centers.TransferConserves` | backend/routes/centers.js:31-56 | no request, accepted or refused, changes the sum of `stored` over all centers |
| `Centers.TransferKeepsInvariant` | backend/routes/centers.js:31-53 | if every center satisfies `0 <= stored <= capacity` and every record names two distinct existing centers and a positive amount, this still holds after any request |
| `Centers.TransferKeepsIdsUnique` | backend/routes/centers.js:40-53 | a record appended under a fresh id keeps the transfer ids distinct |
| `Centers.TransferDoubleEntry` | backend/routes/centers.js:40-54 | after one request, each center's `stored` equals its old value plus the net flow of the records appended, and earlier records stay unchanged |
| `Centers.ReplayDoubleEntry` | backend/routes/centers.js:12-64 | the same holds over any sequence of requests: each center's `stored` is its start value plus the net inflow of the records appended meanwhile |
| `Centers.ReplayConserves` | backend/routes/centers.js:12-64 | the total stored energy is unchanged by any sequence of requests |
| `Centers.ReplayKeepsInvariant` | backend/routes/centers.js:12-64 | the ledger invariant holds after any sequence of requests that starts from it |
| `Centers.SeededWithdrawals` | backend/routes/centers.js:31-56 | on the seeded table, 2000 from EC001 to EC002 leaves 2200 and 4800. A following 2300 from EC001 is then refused for insufficient source energy before capacity is checked |
| `Centers.CentersById` | backend/routes/centers.js:7-10 | `GET /centers` lists every center exactly once, in strictly increasing id order |
| `Centers.TransfersByRecency` | backend/routes/centers.js:66-69 | `GET /centers/transfers` returns a permutation of the transfer records, newest `created_at` first |
| `Database.SeedTable` | backend/db/database.js:59-76 | the seed rows give a table with exactly the keys EC001 to EC004. Each row is stored under its own id and satisfies `0 <= stored <= capacity` |
| `Database.Seeded` | backend/db/database.js:53-77 | a non-empty centers table is left alone; an empty one becomes the seed table |
| `Database.SeedIdempotent` | backend/db/database.js:54-57 | seeding twice gives the same table as seeding once |
| `Database.SeedKeepsInvariant` | backend/db/database.js:59-64 | seeding establishes the bounds and keying invariant, or keeps it |
| `Database.Db.SeedEnergyCentersIfEmpty` | backend/db/database.js:53-77 | the loop inserting the seed rows leaves the table given by `Seeded`, and touches only the centers table |
| `Database.Db.constructor` | backend/db/database.js:7-51 | a new database has the four tables, all empty |
| `Centers.TransferError.Status` | backend/routes/centers.js:16-38 | splits the refusals into cases: 404 for `CenterNotFound`, 400 for the other four |
| `Body.RecordError.Status` | backend/routes/producers.js:23-58 | splits the refusals into cases: 400 for missing fields, 404 for an unknown id (the same at backend/routes/consumers.js:25-63) |
| `Body.Truthy` | backend/routes/producers.js:23-25 | splits `!x` on a text field into cases: a missing or null field is falsy, and a present one is truthy exactly when it is not the empty string (the same at backend/routes/consumers.js:25-27) |
| `Body.Coalesce` | backend/routes/producers.js:62-64 | splits `value ?? existing` into cases: the body's text when present, the existing text when null or missing |
| `Body.NumberOrZero` | backend/routes/producers.js:33-35 | splits `Number(value ?? 0)` into cases: the given number, or 0 when missing or null (the same at backend/routes/consumers.js:36-39) |
| `Body.NumberUnlessUndefined` | backend/routes/producers.js:65-67 | splits `value !== undefined ? Number(value) : existing` into cases: the existing number for `undefined`, 0 for `null`, the given number otherwise (the same at backend/routes/consumers.js:66-67) |
| `Producers.NewProducer` | backend/routes/producers.js:23-37 | refused exactly when `name`, `type`, `city` or `center_id` is not truthy. Otherwise the record has the fresh id, the timestamp and the given text, and each number is as given or 0 |
| `Producers.PostProducer` | backend/routes/producers.js:12-50 | a refusal inserts nothing; a success inserts exactly one row under the fresh id and returns it |
| `Producers.MergeProducer` | backend/routes/producers.js:60-68 | `type`, `city`, `center_id` come from the body unless it is null or missing. Each number comes from the body unless `undefined`, with null giving 0. `name`, `id` and `created_at` are kept |
| `Producers.MergeEmptyBody` | backend/routes/producers.js:60-68 | an update with an empty body leaves the row unchanged |
| `Producers.MergeIdempotent` | backend/routes/producers.js:60-79 | applying the same update twice equals applying it once |
| `Producers.MergeEcho` | backend/routes/producers.js:60-68 | an update carrying the row's own values changes nothing |
| `Producers.CreatedThenEchoed` | backend/routes/producers.js:27-68 | a record created by `POST`, then updated with its own values, stays as created |
| `Producers.PutProducer` | backend/routes/producers.js:52-83 | an unknown id gives 404 and no change. Otherwise only that row is overwritten, with the merge, and the key set is kept |
| `Consumers.NewConsumer` | backend/routes/consumers.js:25-41 | refused exactly when `name`, `type`, `city`, `address` or `center_id` is not truthy. Otherwise the record has the fresh id, the timestamp and the given text, and each of the four numbers is as given or 0 |
| `Consumers.PostConsumer` | backend/routes/consumers.js:12-54 | a refusal inserts nothing; a success inserts exactly one row under the fresh id and returns it |
| `Consumers.MergeConsumer` | backend/routes/consumers.js:65-73 | only `monthly_usage` and `monthly_bill` change. Each comes from the body unless `undefined` (null gives 0); every other column is kept |
| `Consumers.MergeIgnoresOtherFields` | backend/routes/consumers.js:58-73 | the update reads no body field other than `monthly_usage` and `monthly_bill` |
| `Consumers.MergeIdempotent` | backend/routes/consumers.js:65-73 | applying the same update twice equals applying it once |
| `Consumers.PutConsumer` | backend/routes/consumers.js:56-77 | an unknown id gives 404 and no change. Otherwise only that row is overwritten, with the merge, and the key set is kept |
| `App.BaseCost` | frontend/src/App.jsx:75 | 15000 for the type "Industry", 5000 for every other type |
| `App.ReduceNearest` | frontend/src/App.jsx:71-73 | the `reduce` keeps the accumulator only when it is strictly nearer. The result is no farther than any center, and every later center is strictly farther |
| `App.NearestIndex` | frontend/src/App.jsx:71-74 | the chosen center is a nearest one and the last of the nearest in list order |
| `App.NearestIsUnique` | frontend/src/App.jsx:71-73 | only one index is both nearest and the last of the nearest, so the contract of `NearestIndex` fixes its result |
| `App.CalcConnectionCost` | frontend/src/App.jsx:69-77 | no quote when there are no centers. Otherwise the quoted center is in the list, no center is nearer, every later one is strictly farther, and the cost is the base plus 120 per kilometre of its distance |
| `App.DoTransfer` | frontend/src/App.jsx:616-627 | no request is sent for a parsed amount of 0 or NaN, or when the two centers are equal. Otherwise the request carries the form's ids and the parsed amount |
| `App.GuardedRequestOutcome` | frontend/src/App.jsx:617-627 | a request the guard lets through is never refused as same-center. It is refused as an invalid payload exactly when the amount is negative or an id is empty |

## Left out

- The handler at backend/routes/centers.js:12-64 is synchronous: the
  database calls block and nothing is awaited. The server (backend/server.js)
  is a single process, so no other request runs between the reads at lines
  24-25 and the transaction at line 48, and the sequential model covers that
  server. A race would need a second process writing `energy.db` between
  those lines. That case is not modelled, and serializability across
  processes is not addressed.
- SQLite mechanics are not modelled: SQL text, the `CREATE TABLE` statements,
  and rollback on a storage fault. The tables are maps and a sequence.
- Primary-key conflicts are not modelled. They cannot occur because the new
  ids are required to be fresh, and the seed rows go into an empty table.
- UUID generation and the clock are not modelled: the new id and the
  timestamp are parameters.
- Centers.TransfersByRecency: the query fixes no order among equal
  timestamps. The model puts the later insertion first. No claim is made that
  ISO timestamp order is chronological order.
- JavaScript number semantics are not modelled. `Number(...)` of a
  non-numeric string gives NaN, which the NOT NULL columns would reject as a
  server error. Numeric body fields are modelled as already-numeric values.
  Doubles and their rounding are exact reals here.
- Non-string JSON values in text fields are not modelled. A falsy non-string
  transfer id (such as `0` or `false`) is modelled as the empty string.
- `GET /producers` and `GET /consumers` are not modelled. They are read-only
  listings ordered by `created_at`.
- Express routing, CORS, server start-up (backend/server.js) and the
  JSON/status plumbing are not modelled, beyond the result tags and
  `Status()`.
- The React UI is not modelled: hooks, `apiRequest` and `fetch`, the random
  chart data, the usage simulator's floating-point billing, and the row
  conversions `toCenterUI`, `toConsumerUI` and `toProducerUI`. The quote works
  directly on center rows.
- The concrete `getDistance` formula (square root and rounding over double
  coordinates) is not modelled; it is a parameter.
- App.DoTransfer: `parseInt` of the amount field is not modelled. Its result
  is the parameter (`None` for NaN).
- frontend/src/components/Chatbot.jsx is not part of this model. It is an
  external text-generation call with no write path into the ledger.
