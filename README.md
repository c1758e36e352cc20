# Cookie Clicker simulator — a Dafny model

The simulator plays Cookie Clicker against a catalog of buildings:

- A `ClickerState` holds:
  - the elapsed time;
  - the cookies in hand;
  - the total cookies ever produced;
  - the production rate (cookies per second);
  - a history of purchases.
- The history starts with the entry `(0.0, None, 0.0, 0.0)`.
- `simulate_clicker` runs a game for a given duration:
  - it asks a strategy which item to buy next;
  - it waits the whole number of seconds until that item is affordable;
  - it buys the item, and the catalog raises that item's price;
  - it stops buying when the strategy declines or the wait would end after the duration;
  - after that, the rest of the duration is waited out.
- Five strategies are provided:
  - always "Cursor" (deliberately broken: it ignores affordability);
  - never buy;
  - the cheapest item;
  - the most expensive reachable item;
  - the reachable item with the best rate-to-cost ratio.

The model has six modules:

- `Wrappers` — `Option`, the model of Python's `None`.
- `Catalog` — the catalog, which is a collaborator and is kept abstract:
  - an ordered list of item names;
  - a positive cost and a non-negative rate increment per item;
  - `UpdateItem`, which changes only the bought item's cost, by an arbitrary growth rule that keeps costs positive.
- `ClickerStates` — the game state:
  - the `Game` value and the invariant `Inv` every reachable state satisfies;
  - the specification functions `SecondsUntil`, `Waited` and `Bought`;
  - the class `ClickerState`, whose methods update its fields in place and are each proved to produce the specification function's value.
- `Strategies` — each scanning strategy appears twice:
  - as the loop that keeps a running best, as the source has it;
  - as the function that is handed to the simulator;
  - the two are proved to agree.
- `Iteration` — the shape of a loop that repeatedly either moves to a next state or stops, with a bounded number of moves, together with its induction lemmas.
- `Simulation` — `simulate_clicker`, in two forms:
  - a specification (`Decide` for one pass, `Trace` for the passes of a run, `Loop` and `Simulate` for the outcome);
  - the imperative loop on a live `ClickerState` (`SimulateClicker`), proved to produce exactly that outcome;
  - the properties of runs are proved about the specification.

Two consequences of the code are worth stating plainly:

- **History times are only non-decreasing.** A purchase that is already affordable needs a wait of 0 (cookie-clicker.py:80-84), so two purchases can carry the same time. `RepurchaseAtSameInstant` proves this in general, and `ScenarioSameInstant` gives a concrete run.
- **The cheapest-item strategy can buy the same item again.** With items A (cost 5.0) and B (cost 500.0) over 100 seconds, A is bought first; under a moderate growth rule its raised price is then reachable again, so A is bought more than once. Only the first purchase is proved (`ScenarioCheapFirstPurchase`).

## Model

| member | source | states |
|---|---|---|
| Catalog.UpdateItem | cookie-clicker.py:141 | the bought item's cost becomes the growth rule's value; names, increments, the other costs and the key set are unchanged, and the result is again a valid catalog |
| ClickerStates.Ceil | cookie-clicker.py:83 | `math.ceil`: the result is the integer `n` with `x <= n < x + 1` |
| ClickerStates.SecondsUntilIsLeast | cookie-clicker.py:73-84 | the wait is a non-negative whole number; after it the target is in hand; one second less does not reach it; it is 0 exactly when the target is already in hand |
| ClickerStates.WaitUntilAffordable | cookie-clicker.py:80-97 | waiting the reported time puts at least the target in hand |
| ClickerStates.WaitedKeepsInv | cookie-clicker.py:86-97 | `wait` keeps the state invariant, leaves the rate and the history alone, and never moves time or total back |
| ClickerStates.BoughtKeepsInv | cookie-clicker.py:99-110 | with a non-negative cost and increment, `buy_item` keeps the invariant, never lowers the rate, leaves time and total alone, and appends nothing or exactly the record (time, name, cost, total) |
| ClickerStates.StartInv | cookie-clicker.py:21-26 | a fresh state satisfies the invariant |
| ClickerStates.ClickerState.constructor | cookie-clicker.py:21-26 | a fresh state has time, cookies and total 0.0, rate 1.0 and the one-entry history `[(0.0, None, 0.0, 0.0)]` |
| ClickerStates.ClickerState.GetCookies | cookie-clicker.py:34-41 | returns the cookies in hand |
| ClickerStates.ClickerState.GetCps | cookie-clicker.py:43-49 | returns the rate |
| ClickerStates.ClickerState.GetTime | cookie-clicker.py:51-57 | returns the elapsed time |
| ClickerStates.ClickerState.GetHistory | cookie-clicker.py:59-71 | returns a value equal to the internal history |
| ClickerStates.ClickerState.TimeUntil | cookie-clicker.py:73-84 | the least non-negative whole number of seconds after which the target is in hand, 0 exactly when it already is |
| ClickerStates.ClickerState.Wait | cookie-clicker.py:86-97 | the new state is `Waited(old, t)`: nothing changes when `t <= 0`, otherwise time grows by `t` and cookies and total by `cps * t`; rate and history are untouched; the invariant is kept |
| ClickerStates.ClickerState.BuyItem | cookie-clicker.py:99-110 | the new state is `Bought(old, ...)`: nothing changes when the cost exceeds the cookies in hand; a valid state stays valid and the rate does not fall for a non-negative cost and increment |
| Strategies.StrategyCursorBroken | cookie-clicker.py:147-158 | always names "Cursor" |
| Strategies.StrategyNone | cookie-clicker.py:160-167 | never names anything |
| Strategies.FirstCheapest | cookie-clicker.py:176-179 | the scan's running choice is the first item of least cost among those seen |
| Strategies.CheapChoice | cookie-clicker.py:169-184 | names the first cheapest item when it is reachable; names nothing exactly when no item is reachable |
| Strategies.StrategyCheap | cookie-clicker.py:169-184 | the running-minimum loop returns `CheapChoice` |
| Strategies.FirstDearest | cookie-clicker.py:195-198 | the scan's running choice is the first reachable item of greatest cost among those seen, or nothing when none is reachable |
| Strategies.ExpensiveChoice | cookie-clicker.py:188-203 | names the first reachable item of greatest cost; names nothing exactly when no item is reachable |
| Strategies.StrategyExpensive | cookie-clicker.py:188-203 | the running-maximum loop returns `ExpensiveChoice` |
| Strategies.FirstBest | cookie-clicker.py:217-221 | the scan's running choice is the first reachable item whose ratio beats every earlier reachable ratio and 0 |
| Strategies.BestChoice | cookie-clicker.py:209-226 | names the first reachable item of greatest positive ratio (ties and zero ratios never win); names nothing exactly when every reachable item has ratio 0 |
| Strategies.StrategyBest | cookie-clicker.py:209-226 | the running-best-ratio loop returns `BestChoice` |
| Iteration.IterateUnfold | cookie-clicker.py:122-141 | a pass that moves on, with fuel left, puts the rest of the run behind it, and the run ends where the rest ends |
| Iteration.IterateContinues | cookie-clicker.py:122-141 | a pass is followed by another exactly when it moves on and fuel is left |
| Iteration.IterateSucc | cookie-clicker.py:122-141 | the pass after a pass starts from the state that pass moved to |
| Iteration.IterateInvariant | cookie-clicker.py:122-141 | a property every pass preserves holds at every pass of a run that starts with it |
| Iteration.IterateInvariantFrom | cookie-clicker.py:122-141 | a property every pass preserves holds at every pass after the first one that has it |
| Simulation.StepIsWaitThenBuy | cookie-clicker.py:137-139 | a buying pass is `wait(time_until(cost))` followed by `buy_item` at the catalog's price and increment, and that purchase always succeeds |
| Simulation.StepBuys | cookie-clicker.py:137-139 | a buying pass advances time by exactly the wait, never lowers rate or total, and appends exactly the record (end of wait, item, cost, total by then) |
| Simulation.StepKeepsInv | cookie-clicker.py:137-139 | a buying pass keeps the state invariant |
| Simulation.Decide | cookie-clicker.py:122-136 | a pass buys only an item that is in the catalog and whose wait ends no later than the duration (equality allowed) |
| Simulation.DecideOutcomes | cookie-clicker.py:122-136 | a normal stop waits out the rest of the duration (nothing once past it); a missing item leaves the state unchanged; a pass never itself reports running out of fuel |
| Simulation.TraceNext | cookie-clicker.py:122-141 | a pass of the run is followed by another exactly when it buys and fuel is left, and the next pass starts from the state after that purchase with the updated catalog |
| Simulation.NextMove | cookie-clicker.py:126-136 | on the live state, the strategy, the lookup and the `>` comparison give the decision `Decide` describes, with the wait to make before a purchase |
| Simulation.BuyingLoop | cookie-clicker.py:119-141 | the buying loop on the live state keeps it valid; with the remaining wait added when it stops early, its outcome is `Loop` from the starting state |
| Simulation.SimulateClicker | cookie-clicker.py:113-145 | a fresh state, the buying loop and the final wait give a valid state and exactly the outcome `Simulate` |
| Simulation.NextKeepsInv | cookie-clicker.py:137-139 | a buying pass of the run keeps the state invariant |
| Simulation.TraceKeepsInv | cookie-clicker.py:122-141 | every pass of a run from a valid state starts from a valid state |
| Simulation.LoopKeepsInv | cookie-clicker.py:122-144 | the loop and its final wait keep the state invariant |
| Simulation.SimulateKeepsInv | cookie-clicker.py:119-145 | a whole run ends in a state satisfying the invariant: cookies non-negative and at most the total, rate at least 1, history ordered by time and total, starting with the initial entry |
| Simulation.NextMonotone | cookie-clicker.py:133-139 | a buying pass never lowers rate, total or time, ends no later than the duration, and only appends a purchase |
| Simulation.TraceMonotone | cookie-clicker.py:122-141 | between two passes of a run, rate, total and time never fall and the history only grows by purchases made no later than the duration |
| Simulation.TraceWithinDuration | cookie-clicker.py:122-141 | started no later than the duration, every pass starts no later than it |
| Simulation.FinishWaitsOut | cookie-clicker.py:142-144 | the last pass buys nothing: rate and history are kept, time and total do not fall, time does not pass the duration, and the invariant is kept |
| Simulation.LoopMonotone | cookie-clicker.py:122-144 | the loop never lowers rate, total or time |
| Simulation.LoopAppendsPurchases | cookie-clicker.py:122-144 | the loop only appends to the history, and every appended record is a purchase made no later than the duration |
| Simulation.LoopEndsAtDuration | cookie-clicker.py:122-144 | started no later than the duration, the loop never passes it, and a normal finish lands exactly on it |
| Simulation.LoopUnfold | cookie-clicker.py:133-141 | a pass that buys hands the rest of the run to the loop from the state after the purchase, with the updated catalog and one purchase less |
| Simulation.PurchaseWithinBudget | cookie-clicker.py:130-139 | when the strategy names a catalog item, it is bought next exactly when its wait ends no later than the duration, and it is logged at the end of the wait with the total by then |
| Simulation.PurchaseLogged | cookie-clicker.py:137-139 | a buying pass logs its record at the next position of the final history |
| Simulation.StopWaitsOut | cookie-clicker.py:133-144 | a normal stop ends the run with the rest of the duration waited out |
| Simulation.SimulateBounds | cookie-clicker.py:113-145 | a whole run: valid final state; time never passes a non-negative duration and a normal finish lands on it; a negative duration changes nothing; every purchase is at or before the duration |
| Simulation.DecliningStrategyWaitsOut | cookie-clicker.py:126-128 | a strategy that declines at the start gives the final state (duration, duration, duration, 1.0, initial history) |
| Simulation.StrategyNoneWaitsOut | cookie-clicker.py:160-167 | with `strategy_none` the final total is 1.0 times the duration and the history is just the initial entry |
| Simulation.BrokenCursorWaitsOut | cookie-clicker.py:147-158 | the broken strategy against a Cursor costing more than the duration can produce behaves like `strategy_none` |
| Simulation.BrokenCursorMissing | cookie-clicker.py:130-132 | the broken strategy against a catalog without Cursor fails on the lookup before anything changes |
| Simulation.ScenarioNeverBuys | cookie-clicker.py:160-167 | an instance of the catalog of line 256 (Cursor at 15.0 adding 0.1) with `strategy_none`, over 5.0 seconds rather than that line's 5000.0: total 5.0 and the one-entry history |
| Simulation.ScenarioBrokenCursor | cookie-clicker.py:147-158 | Cursor at 15.0, broken strategy, 5.0 seconds: total 5.0 and a one-entry history |
| Simulation.ScenarioCheapFirstPurchase | cookie-clicker.py:169-184 | A at 5.0 and B at 500.0 with the cheapest-item strategy over 100.0 seconds: the first purchase is A, logged as (5.0, A, 5.0, 5.0) |
| Simulation.TwoStepsSameInstant | cookie-clicker.py:137-139 | two buying passes of the same item, the second paid from what the first left, log two records with the same time |
| Simulation.RepurchaseAtSameInstant | cookie-clicker.py:130-141 | when the loop buys an item twice in a row and the second price is already in hand, the final history holds two records with the same time |
| Simulation.ScenarioSameInstant | cookie-clicker.py:130-141 | a Cursor of cost at most 0.5 that does not grow, bought by the broken strategy: the first two purchases are both at time 1.0 |

## Left out

- Plotting, printing and the driver are I/O and platform setup and are not modelled: `simpleplot`, `codeskulptor.set_timeout`, `__str__`, `run_strategy`, `run` and the module-level call (cookie-clicker.py:5-9, 28-32, 228-255).
- The real `poc_clicker_provided.BuildInfo` is not part of this model:
  - its growth rule is a parameter that keeps costs positive;
  - `clone` has no counterpart, because the catalog is a value;
  - item names are assumed distinct, costs positive and increments non-negative.
  - the strategies scan the catalog's list of item names, which stands for `build_items()`; a cost entry whose name is not listed is never offered by a strategy.
- Floating point is modelled by exact reals. The `float('inf')` and `float('-inf')` sentinels of the strategies become a `seen` flag.
- `simulate_clicker` calls the strategy twice per pass (cookie-clicker.py:126, 130). A strategy is a pure function here, so the model calls it once.
- The inner check `get_time() > duration` (cookie-clicker.py:123-124) can never fire under the loop guard and is not modelled.
- Division by zero is excluded by preconditions instead of being modelled:
  - `time_until` with a zero rate (cookie-clicker.py:83);
  - `strategy_best` with a zero cost (cookie-clicker.py:218).
- A strategy that names an item missing from the catalog makes the source raise an error on the lookup. The model ends the run with status `UnknownItem` and leaves the state as it was.
- The buying loop need not terminate in general: zero-length waits can repeat purchases at the same instant forever. The model bounds the number of purchases by a `fuel` argument, and a run that uses it up ends with status `FuelExhausted`. Runs longer than the fuel are not described.
- `get_history` returns a copy of the list. Histories are immutable sequences here, so aliasing cannot arise and is not modelled.
- Strategies are passed to the simulator as function values; the loop versions `StrategyCheap`, `StrategyExpensive` and `StrategyBest` are proved equal to them.
- Simulation.ScenarioCheapFirstPurchase: states only the first purchase, because later purchases depend on the catalog's growth rule.
