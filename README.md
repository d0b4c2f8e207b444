# Festo shop: production-line simulator, order form and cart

This project models three parts of the Festo shopping and factory web site in
Dafny and proves properties of each.

- **The production-line simulator** (`shopping_website/core/factory_routes.py`).
  An order has a step chain such as `"1->2->3"` and an amount. Every piece of
  the order has one row per chain step in `piece_step_progress`. A row is
  `pending`, `running` or `finished`. Every station row in `station_state`
  holds at most one job until its `busy_until` time. One *tick* does three
  things:
  1. It finishes every job whose deadline has passed and frees its station.
  2. For the order in focus, it lets each idle station, in station-name order,
     start the first eligible piece of the first of its steps that has one.
  3. It marks the order `completed` once its last step has enough finished
     pieces.

  The `simulate` page ensures the station rows and piece rows, runs one tick
  and shows one status line per step. `api_reset` frees the order's stations
  and deletes its rows.
- **The order form** (`shopping_website/core/order_routes.py`). This is the
  server-side check of the quantity typed for each product. The first
  offending product stops the scan with its error. An empty selection is an
  error too. Otherwise the selection is stored and shown by the process-plan
  page, which falls back to one default line when nothing is stored.
- **The browser cart** (`shopping_website/static/js/Ordercart.js`). Adding to
  the cart merges into an existing entry by id or appends a new one. Deleting
  removes one row by index (`splice`).

Layout:

- `wrappers.dfy` holds `Option` and `Result`.
- `text.dfy` holds `strip`, digit strings, Python's `int()` on a string, SQL `TRIM` and the text order SQLite sorts by.
- `chain.dfy` holds the step-chain parser and `_prev_step`.
- `ordering.dfy` holds the ascending enumeration of a finite set of step ids or station names (`sort()`, `ORDER BY station`).
- `catalog.dfy` holds the `standard_process` table and its lookups.
- `factory.dfy` holds the three order-database tables as maps, one specification function per engine operation, and the engine invariant `Valid`.
- `factory_facts.dfy`, `factory_invariant.dfy` and `factory_tick.dfy` hold the lemmas about those functions.
- `factory_line.dfy` holds the class `ProductionLine`. Its fields are the tables. Each of its methods runs the loops of the source and is proved equal to the specification function.
- `order_form.dfy` holds the order form and the process-plan summary.
- `order_cart.dfy` holds the class `Cart` and the specification of its two operations.

The model follows these behaviours of the code:

- A station tries its steps in ascending step id.
- A station scans every pending row of a step in ascending piece number, including pieces above the order amount.
- An order counts as completed when the finished count of its last step is at least `max(1, amount)`.
- Station rows are keyed by the raw catalog station value, which SQL `TRIM` has tested for blanks. The step-to-station map uses Python's `strip()`. A station name with surrounding white space therefore gets a row but is never offered a step.
- A missing, NULL, zero or unreadable estimated time gives 5 seconds. A non-empty text `"0"` is truthy in Python and gives 0.

## Model

| member | source | states |
|---|---|---|
| Text.ParseInt | shopping_website/core/order_routes.py:64-68 | `int()` accepts exactly a digit string with an optional sign; it gives the digits' value, negated after a `-` and unchanged after a `+` |
| Text.SqlTrim | shopping_website/core/factory_routes.py:109 | SQL `TRIM` leaves no space at either end, and gives `''` exactly when the value is all spaces, which is what `TRIM(station) <> ''` tests |
| Text.SqlTrimSlice | shopping_website/core/factory_routes.py:109 | `TRIM` removes the spaces at both ends and nothing else: its result is a slice of the value with only spaces outside it |
| Chain.Split | shopping_website/core/factory_routes.py:50 | `split("->")` always yields at least one piece |
| Chain.SplitRejoin | shopping_website/core/factory_routes.py:50 | joining the pieces of `split("->")` with `"->"` gives the text back |
| Chain.SplitPiecesNoArrow | shopping_website/core/factory_routes.py:50 | no piece of `split("->")` contains `"->"` |
| Chain.ParseStepChain | shopping_website/core/factory_routes.py:46-54 | the append loop returns exactly `StepChain(s)`: the stripped all-digit pieces in order, and `[]` for empty text |
| Chain.ParseJoinRoundTrip | shopping_website/core/factory_routes.py:46-54 | parsing a chain written as `"a->b->c"` gives the chain back |
| Chain.IndexOf | shopping_website/core/factory_routes.py:178 | `list.index` gives the first position holding the value |
| Chain.PrevStep | shopping_website/core/factory_routes.py:175-181 | None exactly when the step is absent or first in the chain; otherwise the id just before its first occurrence |
| Ordering.SortedInts | shopping_website/core/factory_routes.py:244-245 | a station's step list holds exactly its steps, each once, strictly ascending |
| Ordering.SortInts | shopping_website/core/factory_routes.py:244-245 | the sort computes that ascending list |
| Ordering.SortedNames | shopping_website/core/factory_routes.py:269-274 | `ORDER BY station` lists every name exactly once in strictly ascending text order |
| Ordering.SortNames | shopping_website/core/factory_routes.py:106-112 | the station enumeration computes that ascending list |
| Ordering.LeastNameUnique | shopping_website/core/factory_routes.py:110 | the text order has one least element, so the enumeration is deterministic |
| Catalog.EstSeconds | shopping_website/core/factory_routes.py:117-128 | 5 for a missing row and for a NULL, 0 or unreadable cell; a non-empty text `"0"` gives 0; other values are taken as they are; a result of 0 or less comes only from a stored value |
| Catalog.StepBelongsToOneStation | shopping_website/core/factory_routes.py:131-139 | a catalogued step with a non-blank station is offered to its stripped station name and to no other |
| Catalog.StationNamesExact | shopping_website/core/factory_routes.py:105-111 | a station gets a row exactly when some catalog row has that raw station value and its SQL `TRIM` is non-empty |
| Catalog.StepDefs | shopping_website/core/factory_routes.py:142-151 | the result is no longer than the chain, and every definition is the catalog row of its step |
| Catalog.StepDefsMembers | shopping_website/core/factory_routes.py:150-151 | a step is listed exactly when it is both in the chain and in the catalog |
| Catalog.StepDefsComplete | shopping_website/core/factory_routes.py:150-151 | when every chain step is catalogued, the definitions list the chain's steps in chain order |
| Catalog.StepDefsAppend | shopping_website/core/factory_routes.py:151 | the definitions of two joined chains are those of the first followed by those of the second |
| Factory.Max1 | shopping_website/core/factory_routes.py:155 | `max(1, x)` is at least 1 and at least x, and equals one of them |
| Factory.NormAmount | shopping_website/core/factory_routes.py:261-264 | `max(1, int(amount or 1))`, or 1 when `int` raises: always at least 1; a readable amount of 1 or more is kept, and a readable amount below 1, NULL or an unreadable value gives 1 |
| FactoryFacts.EnsuredRowsSpec | shopping_website/core/factory_routes.py:154-162 | after the inserts, every piece `1..max(1, amount)` has a row for every chain step; existing rows are untouched; every new row is pending and belongs to one of those pieces and steps |
| FactoryFacts.EnsuredRowsIdempotent | shopping_website/core/factory_routes.py:154-162 | running the inserts twice gives the same table as running them once |
| FactoryFacts.EnsureStationsSpec | shopping_website/core/factory_routes.py:105-114 | every catalog station gets a row; existing rows are kept; added rows are idle; no other table changes |
| FactoryFacts.SweepFinishesDue | shopping_website/core/factory_routes.py:203-225 | a station whose deadline has passed becomes idle; its job row, when running, becomes finished at `now` and keeps its start time |
| FactoryFacts.SweepSkipsNotDue | shopping_website/core/factory_routes.py:203-209 | an idle station, a future deadline or an unreadable deadline leaves the station and its job row as they were |
| FactoryFacts.SweepKeepsSettledRows | shopping_website/core/factory_routes.py:193-227 | the sweep adds and removes no row and touches only running rows, which it can only turn finished |
| FactoryFacts.PendingPiecesExact | shopping_website/core/factory_routes.py:291-296 | the candidate pieces of a step are exactly those whose row for that step is pending |
| FactoryFacts.FirstPieceSpec | shopping_website/core/factory_routes.py:298-321 | the candidate loop returns the first listed piece that is not running and whose previous step is finished; it returns None only when no listed piece qualifies |
| FactoryFacts.FirstPieceLeast | shopping_website/core/factory_routes.py:295-321 | on an ascending candidate list, no smaller listed piece qualifies |
| FactoryFacts.StepChoice | shopping_website/core/factory_routes.py:286-321 | for one step, the chosen piece is the least eligible piece, and None means that no piece is eligible |
| FactoryFacts.BestJobSpec | shopping_website/core/factory_routes.py:284-324 | `best_job` is an eligible job of a chain step of the station; every earlier step of its list has no eligible piece; None means that none of its chain steps has one |
| FactoryFacts.AssignSpec | shopping_website/core/factory_routes.py:331-345 | a hand-over makes exactly the chosen row running and makes the station hold it until the given time |
| FactoryFacts.StationTurnIsBestJob | shopping_website/core/factory_routes.py:278-355 | a station's turn hands over exactly its `best_job` with deadline `now + est`, or changes nothing |
| FactoryFacts.StationTurnChoice | shopping_website/core/factory_routes.py:326-355 | a turn that hands over a job picked an eligible chain step of the order, started its row and occupied only this station |
| FactoryFacts.StationTurnFrame | shopping_website/core/factory_routes.py:326-355 | a turn changes only the row it starts and its own station row, and never a row that is not pending |
| FactoryFacts.AssignAllFrame | shopping_website/core/factory_routes.py:278-357 | the idle-station loop changes no order, adds no row and leaves every row and station it did not assign unchanged |
| FactoryFacts.AssignAllChoices | shopping_website/core/factory_routes.py:278-357 | every dispatched job is for the focus order and a chain step, was eligible when the loop began and is now running; no two dispatched jobs share a piece |
| FactoryFacts.AssignAllStations | shopping_website/core/factory_routes.py:269-357 | the jobs go to distinct idle stations, and each of those stations holds its job |
| FactoryInvariant.EmptyValid | shopping_website/core/factory_routes.py:57-80 | freshly created empty tables satisfy the invariant |
| FactoryInvariant.EnsureStationsValid | shopping_website/core/factory_routes.py:105-114 | ensuring the station rows keeps the invariant |
| FactoryInvariant.EnsuredRowsValid | shopping_website/core/factory_routes.py:154-162 | ensuring the piece rows keeps the invariant |
| FactoryInvariant.SweepValid | shopping_website/core/factory_routes.py:193-227 | the completion sweep keeps the invariant |
| FactoryInvariant.StationTurnValid | shopping_website/core/factory_routes.py:326-355 | one idle station's turn keeps the invariant: one step in flight per piece, precedence, and one held job per running row |
| FactoryInvariant.AssignAllValid | shopping_website/core/factory_routes.py:278-357 | the loop over distinct idle stations keeps the invariant |
| FactoryInvariant.AscendingDistinct | shopping_website/core/factory_routes.py:269-274 | the idle stations listed in name order are distinct |
| FactoryInvariant.DispatchValid | shopping_website/core/factory_routes.py:230-357 | a dispatch keeps the invariant |
| FactoryInvariant.CheckCompletionValid | shopping_website/core/factory_routes.py:372-382 | the completion check keeps the invariant |
| FactoryInvariant.TickValid | shopping_website/core/factory_routes.py:360-384 | a tick keeps the invariant |
| FactoryInvariant.ClearedValid | shopping_website/core/factory_routes.py:524-531 | a reset keeps the invariant |
| FactoryTick.DispatchNothingToDo | shopping_website/core/factory_routes.py:248-259 | a missing order, an order that is not active, or an empty chain dispatches nothing and changes nothing |
| FactoryTick.DispatchAssigns | shopping_website/core/factory_routes.py:266-357 | the piece rows are ensured first; only idle stations receive jobs, at most one each; every job was eligible; nothing else changes |
| FactoryTick.DispatchKeepsSettled | shopping_website/core/factory_routes.py:230-357 | a dispatch changes no order, keeps every row that is not pending, and adds rows only for the focus order |
| FactoryTick.TickKeepsFinished | shopping_website/core/factory_routes.py:360-384 | a tick never loses or alters a finished row, so no finished count ever decreases |
| FactoryTick.TickFocusOnly | shopping_website/core/factory_routes.py:360-384 | rows of other orders change only through the global completion sweep |
| FactoryTick.TickCompletion | shopping_website/core/factory_routes.py:372-382 | after a tick the order is completed exactly when it already was, or when its last step has at least `max(1, amount)` finished rows; no other order or column changes |
| FactoryTick.ClearedSpec | shopping_website/core/factory_routes.py:524-531 | a reset leaves no row and no station job of the order; rows of other orders and stations working for others are unchanged |
| FactoryTick.ClearedRestarts | shopping_website/core/factory_routes.py:524-531 | after a reset, every step of the order counts 0 finished and 0 running, and ensuring the rows again makes all of them pending |
| FactoryTick.ProjectionLength | shopping_website/core/factory_routes.py:450 | there is one status line per step definition |
| FactoryTick.ProjectionAt | shopping_website/core/factory_routes.py:450-463 | the i-th status line describes the i-th step definition |
| FactoryTick.ProjectionSpec | shopping_website/core/factory_routes.py:431-463 | one line per catalogued chain step, in chain order, showing its finished count and the amount; the state is finished once the count reaches the amount, running while some row is running, and pending otherwise |
| FactoryLine.ProductionLine.constructor | shopping_website/core/factory_routes.py:57-80 | the line starts with empty progress and station tables, which satisfy the invariant |
| FactoryLine.ProductionLine.EnsureStationRows | shopping_website/core/factory_routes.py:105-114 | the insert loop over the sorted station names produces `EnsureStations` and keeps the invariant |
| FactoryLine.ProductionLine.EnsurePieceRows | shopping_website/core/factory_routes.py:154-162 | the nested insert loops produce `EnsuredRows` and keep the invariant |
| FactoryLine.ProductionLine.CompleteDueJobs | shopping_website/core/factory_routes.py:193-227 | the loop over busy stations produces `Sweep` and keeps the invariant |
| FactoryLine.ProductionLine.FirstReadyPiece | shopping_website/core/factory_routes.py:298-321 | the candidate loop returns `FirstPiece` |
| FactoryLine.ProductionLine.FindBestJob | shopping_website/core/factory_routes.py:284-324 | the step loop returns `BestJob` for the station's ascending step list, and the job it returns is eligible |
| FactoryLine.ProductionLine.HandOver | shopping_website/core/factory_routes.py:329-355 | the two updates and the appended record are one station's turn |
| FactoryLine.ProductionLine.DispatchForFocusOrder | shopping_website/core/factory_routes.py:230-357 | the station loop produces the state and the dispatched list of `Dispatch` and keeps the invariant |
| FactoryLine.ProductionLine.TickOnceForOrder | shopping_website/core/factory_routes.py:360-384 | sweep, dispatch and completion check together produce `Tick` and keep the invariant |
| FactoryLine.ProductionLine.StepStatus | shopping_website/core/factory_routes.py:431-463 | the aggregation and classification loops return `Projection`, and they change nothing |
| FactoryLine.ProductionLine.Simulate | shopping_website/core/factory_routes.py:392-473 | station rows are ensured first; a missing order or an empty chain ends with an error and no other change; otherwise the piece rows are ensured, one tick runs, and the page is the projection of the new table |
| FactoryLine.ProductionLine.Reset | shopping_website/core/factory_routes.py:517-533 | produces `Cleared` and keeps the invariant |
| OrderForm.BlankOrZeroSkipped | shopping_website/core/order_routes.py:59-61 | a blank field and the exact text `"0"` are skipped without an error |
| OrderForm.CheckMeaning | shopping_website/core/order_routes.py:57-85 | a product is rejected as not an integer, as negative or as over stock exactly in those situations, each error naming the product (and the stock); it is selected exactly when its parsed quantity is between 1 and the stock, and then with that quantity |
| OrderForm.ScanOk | shopping_website/core/order_routes.py:57-85 | the scan succeeds exactly when no product is rejected, and it then selects exactly the products with an accepted positive quantity, in product order |
| OrderForm.FirstErrorStops | shopping_website/core/order_routes.py:64-76 | the first rejected product decides the error, whatever the later products hold |
| OrderForm.ScanErrIsFirst | shopping_website/core/order_routes.py:57-85 | a failed scan carries the error of the first rejected product |
| OrderForm.SelectionMeaning | shopping_website/core/order_routes.py:87-93 | the form succeeds exactly when nothing is rejected and something is selected, and stores exactly the selection; "choose at least one product" comes exactly when nothing is rejected and nothing selected |
| OrderForm.SelectedItemsValid | shopping_website/core/order_routes.py:78-85 | every stored item carries the id and name of a product and a quantity between 1 and that product's stock |
| OrderForm.SelectedSnoc | shopping_website/core/order_routes.py:78-85 | the selection of a longer product list is that of the shorter list, plus the new product if it is selected |
| OrderForm.ValidateQuantities | shopping_website/core/order_routes.py:54-93 | the loop with its `break` returns `OrderSelection` |
| OrderForm.PlanSummary | shopping_website/core/order_routes.py:177-181 | the process-plan summary is never empty |
| OrderForm.PlanShowsSelection | shopping_website/core/order_routes.py:177-181 | after a successful form the process-plan page shows exactly the selection; without one it shows the single default line |
| OrderCart.IndexOfId | shopping_website/static/js/Ordercart.js:44 | `find` by id gives the first entry with that id, or none when no entry has it |
| OrderCart.FindProduct | shopping_website/static/js/Ordercart.js:47 | the product lookup gives the first loaded product with that id, or none when no product has it |
| OrderCart.AddRejectsBadInput | shopping_website/static/js/Ordercart.js:38-41 | no product (pid 0 or NaN), or a numeric quantity of 0 or less: the first alert and an unchanged cart, under the guard as written and under the corrected guard; a NaN quantity passes the written guard (see Findings) |
| OrderCart.AddRejectsNaN | shopping_website/static/js/Ordercart.js:38-41 | (corrected guard) a NaN quantity also raises the first alert and leaves the cart unchanged |
| OrderCart.AddUnknownProduct | shopping_website/static/js/Ordercart.js:47-48 | an id missing from the loaded products throws before the cart changes |
| OrderCart.AddChecksStock | shopping_website/static/js/Ordercart.js:47-51 | a quantity above the stock gives the stock alert and no change; otherwise the addition merges or appends |
| OrderCart.AddMerges | shopping_website/static/js/Ordercart.js:53-54 | an id already in the cart increases that entry's quantity; the length and every other entry stay the same |
| OrderCart.AddAppends | shopping_website/static/js/Ordercart.js:55-62 | a new id appends exactly one entry with the product's name and price and the quantity |
| OrderCart.AddKeepsValid | shopping_website/static/js/Ordercart.js:32-66 | additions keep ids unique and every quantity a positive integer |
| OrderCart.AddAsWrittenKeepsIdsUnique | shopping_website/static/js/Ordercart.js:44-62 | even as written, additions keep ids unique |
| OrderCart.GuardsAgreeOnNumbers | shopping_website/static/js/Ordercart.js:38 | the written guard and the corrected guard agree on every numeric quantity |
| OrderCart.NaNQuantityAccepted | shopping_website/static/js/Ordercart.js:36-62 | as written, an empty quantity box (NaN) adds an entry with a NaN quantity; the corrected cart stays empty |
| OrderCart.StockCheckedPerAddition | shopping_website/static/js/Ordercart.js:47-54 | stock is compared with each addition alone, so two additions of 3 against a stock of 5 give a quantity of 6 |
| OrderCart.RemoveAt | shopping_website/static/js/Ordercart.js:96-98 | a row index removes exactly that row and keeps the others in order |
| OrderCart.RemoveOutOfRange | shopping_website/static/js/Ordercart.js:97 | an index at or past the end removes nothing; a negative index counts from the end |
| OrderCart.RemoveKeepsValid | shopping_website/static/js/Ordercart.js:96-98 | removal keeps ids unique and quantities positive |
| OrderCart.RemoveUndoesAppend | shopping_website/static/js/Ordercart.js:96-98 | removing the row that an addition just appended restores the cart |
| OrderCart.Cart.constructor | shopping_website/static/js/Ordercart.js:2-3 | the page starts with an empty cart and the loaded products |
| OrderCart.Cart.FindInCart | shopping_website/static/js/Ordercart.js:44 | the search loop returns `IndexOfId` |
| OrderCart.Cart.FindLoaded | shopping_website/static/js/Ordercart.js:47 | the search loop returns `FindProduct` |
| OrderCart.Cart.AddToCart | shopping_website/static/js/Ordercart.js:32-66 | updates the cart to `Added` (with the corrected guard), returns how the call ended, and keeps the cart valid |
| OrderCart.Cart.RemoveFromCart | shopping_website/static/js/Ordercart.js:96-99 | updates the cart to `Removed` (the `splice`) and keeps the cart valid |

## Left out

- SQLite plumbing is not modelled: connections, `_ensure_tables` column migration, `commit`, and the `started_at`/`finished_at`/`updated_at` text formatting. The tables are maps, and time stamps are the integer `now`.
- The wall clock (`_now`) is a parameter `now` in seconds. `busy_until` is an integer, or a value `datetime.fromisoformat` rejects.
- Flask routing, `login_required`, the owner/admin access check of `simulate` and template rendering are not modelled. The `simulate` model returns the step lines, or the 404/400 cases as errors.
- `api_init`, `api_tick`, `api_debug_state` and the rest of the file are not modelled. They only combine the modelled operations.
- Concurrency between requests is left out. Every operation is one atomic step.
- The progress of an order towards completion (liveness) is not proved. Only safety properties and invariants are.
- `Text.ParseInt` does not model Python `int()`'s acceptance of underscores between digits or of non-ASCII digits.
- Chain.ParseStepChain and Chain.StepChain treat only ASCII `0`-`9` as digits, while `str.isdigit` accepts every Unicode digit. For `"1->١"` (an Arabic-Indic one) the code gives `[1, 1]` and the model gives `[1]`. For `"1->²"`, `isdigit` holds but `int("²")` raises an uncaught `ValueError`, so `simulate` fails with a server error, while the model gives `[1]`.
- The `standard_process` table is a map keyed by step id, so duplicate `step_order` rows are not represented.
- The completion sweep visits busy stations in an unspecified order, because the query has no `ORDER BY`. `CompleteDueJobs` picks them in any order and is proved to give the same result.
- Catalog.EstSeconds: a floating-point `estimated_time_sec`, which `int()` would truncate, is not modelled. Cells are NULL, integers, or texts.
- `OrderForm.Product` drops `description` and `base_price`. They are only displayed. A NULL stock is not modelled.
- In the cart, `fetch`, the DOM, `alert`, the re-render and the quantity-box reset are left out. Prices are copied but never summed, so the floating-point total of `renderCartTable` is left out.
- `OrderCart.Cart.AddToCart` models the corrected guard described under Findings; `OrderCart.AddOutcomeAsWritten` keeps the guard as written.

## Findings

| source | as written | input that shows it | evidently intended | confidence | as-written member | corrected member |
|---|---|---|---|---|---|---|
| shopping_website/static/js/Ordercart.js:36-41 | `parseInt` of an empty or non-numeric quantity gives NaN. `qty <= 0` and `qty > total` are both false for NaN, so the entry is added with quantity NaN. | product 1 chosen, quantity box empty: the cart becomes `[{id: 1, ..., qty: NaN}]` | reject a quantity that is not a positive integer with the "enter a correct quantity" alert | high (not executed) | OrderCart.NaNQuantityAccepted | OrderCart.AddKeepsValid |
