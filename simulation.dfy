/**
 * The simulation loop (`simulate_clicker`): ask the strategy for an item,
 * wait the whole number of seconds until it is affordable, buy it and let the
 * catalog raise its price — until the strategy declines or the wait would run
 * past the duration, at which point the remaining time is waited out.
 *
 * The loop need not end for every strategy and growth rule (purchases with a
 * zero wait can repeat at the same instant), so the model bounds the number
 * of purchases by a fuel argument and reports running out of it.
 */
module Simulation {
  import opened Wrappers
  import opened Catalog
  import opened ClickerStates
  import opened Strategies
  import opened Iteration

  /**
   * How a run ended: normally, by running out of fuel, or with a strategy
   * naming an item the catalog does not have (a KeyError in the source).
   */
  datatype Status = Finished | FuelExhausted | UnknownItem(item: string)

  datatype Run = Run(status: Status, game: Game)

  /** What one pass of the loop decides: stop with a status and a final state, or buy an item. */
  datatype Decision = Stop(status: Status, final: Game) | Purchase(item: string)

  /**
   * One buying pass: time advances by the whole-second wait until `item` is
   * affordable, the cookies produced meanwhile pay its catalog price, the
   * rate rises by its increment, and the purchase is logged.
   */
  function Step(g: Game, info: ValidInfo, item: string): Game
    requires 0.0 < g.cps && item in info.cost
  {
    var wait := SecondsUntil(g, info.cost[item]);
    Game(g.time + wait, g.cookies + g.cps * wait - info.cost[item], g.total + g.cps * wait,
         g.cps + info.cps[item], g.history + [BuyRecord(g, info, item)])
  }

  /** The record a buying pass logs: the end of the wait, the item, its price and the total by then. */
  function BuyRecord(g: Game, info: ValidInfo, item: string): Record
    requires 0.0 < g.cps && item in info.cost
  {
    var wait := SecondsUntil(g, info.cost[item]);
    Record(g.time + wait, Some(item), info.cost[item], g.total + g.cps * wait)
  }

  /**
   * A buying pass is `wait` for the time `time_until` reports followed by a
   * `buy_item` at the catalog's price and increment, which then always
   * succeeds.
   */
  lemma StepIsWaitThenBuy(g: Game, info: ValidInfo, item: string)
    requires 0.0 < g.cps && item in info.cost
    ensures var wait := SecondsUntil(g, info.cost[item]);
      Step(g, info, item) == Bought(Waited(g, wait), item, info.cost[item], info.cps[item])
  {
    var cost := info.cost[item];
    var wait := SecondsUntil(g, cost);
    var w := Waited(g, wait);
    WaitUntilAffordable(g, cost);
    SecondsUntilIsLeast(g, cost);
    assert w.time == g.time + wait && w.cookies == g.cookies + g.cps * wait && w.total == g.total + g.cps * wait by {
      if wait <= 0.0 {
        assert wait == 0.0;
      }
    }
    assert w.cps == g.cps && w.history == g.history;
  }

  /**
   * A buying pass never lowers the rate or the total: time advances by exactly
   * the wait, and exactly one record is appended.
   */
  lemma StepBuys(g: Game, info: ValidInfo, item: string)
    requires 0.0 < g.cps && item in info.cost
    ensures g.cps <= Step(g, info, item).cps && g.total <= Step(g, info, item).total
    ensures Step(g, info, item).time == g.time + SecondsUntil(g, info.cost[item])
    ensures Step(g, info, item).history == g.history + [BuyRecord(g, info, item)]
  {
    var wait := SecondsUntil(g, info.cost[item]);
    SecondsUntilIsLeast(g, info.cost[item]);
    MulMonotone(g.cps, 0.0, wait);
    assert 0.0 <= info.cps[item];
  }

  /** A buying pass keeps the state invariant. */
  lemma StepKeepsInv(g: Game, info: ValidInfo, item: string)
    requires Inv(g) && item in info.cost
    ensures Inv(Step(g, info, item))
  {
    var wait := SecondsUntil(g, info.cost[item]);
    StepIsWaitThenBuy(g, info, item);
    WaitedKeepsInv(g, wait);
    assert 0.0 <= info.cps[item];
    BoughtKeepsInv(Waited(g, wait), item, info.cost[item], info.cps[item]);
  }

  /**
   * One pass of the loop from state `g`. Past the duration the loop is not
   * entered and nothing happens. Otherwise the strategy is asked once; a
   * refusal, or an item whose wait would end after the duration, stops
   * purchasing and the remaining time is waited out; an item missing from the
   * catalog stops the run on the lookup; any other item is bought.
   */
  function Decide(g: Game, info: ValidInfo, duration: real, strategy: Strategy): (d: Decision)
    requires 0.0 < g.cps
    ensures d.Purchase? ==> d.item in info.cost && g.time + SecondsUntil(g, info.cost[d.item]) <= duration
  {
    if g.time > duration then Stop(Finished, g)
    else
      match strategy(g.cookies, g.cps, g.history, duration - g.time, info)
      case None => Stop(Finished, Waited(g, duration - g.time))
      case Some(item) =>
        if item !in info.cost then Stop(UnknownItem(item), g)
        else if SecondsUntil(g, info.cost[item]) + g.time > duration then Stop(Finished, Waited(g, duration - g.time))
        else Purchase(item)
  }

  /**
   * What a pass that stops leaves behind: a normal stop waits out the rest of
   * the duration (nothing, once past it), and a missing item leaves the state
   * as it was. Running out of fuel is never a pass's own decision.
   */
  lemma DecideOutcomes(g: Game, info: ValidInfo, duration: real, strategy: Strategy)
    requires 0.0 < g.cps
    ensures var d := Decide(g, info, duration, strategy);
      && (d.Stop? ==> d.status != FuelExhausted)
      && (d.Stop? && d.status == Finished ==> d.final == if g.time <= duration then Waited(g, duration - g.time) else g)
      && (d.Stop? && d.status.UnknownItem? ==> d.final == g && d.status.item !in info.cost)
  {
    if g.time > duration {
      assert Decide(g, info, duration, strategy) == Stop(Finished, g);
    }
  }

  /** A configuration of the loop: the game so far and the catalog it buys from. */
  datatype Config = Config(game: Game, info: ValidInfo)

  /** A configuration the loop can decide on: its rate is positive, so waits are defined. */
  type Live = c: Config | 0.0 < c.game.cps witness Config(Start(), BuildInfo([], map[], map[]))

  /** The configuration one buying pass leads to, or nothing when the pass does not buy. */
  function Next(c: Live, duration: real, strategy: Strategy, grow: Growth): Option<Live> {
    match Decide(c.game, c.info, duration, strategy)
    case Stop(_, _) => None
    case Purchase(item) =>
      StepBuys(c.game, c.info, item);
      Some(Config(Step(c.game, c.info, item), UpdateItem(c.info, item, grow)))
  }

  /** `Next` as the step function of the loop. */
  function Advance(duration: real, strategy: Strategy, grow: Growth): Live -> Option<Live> {
    c => Next(c, duration, strategy, grow)
  }

  /**
   * The configurations the loop passes through from `g`, one per pass: each
   * pass but the last buys an item, and the last one stops the loop or finds
   * no purchase left in `fuel`.
   */
  function Trace(g: Game, info: ValidInfo, duration: real, strategy: Strategy, grow: Growth, fuel: nat): seq<Live>
    requires 0.0 < g.cps
  {
    Iterate<Live>(Config(g, info), Advance(duration, strategy, grow), fuel)
  }

  /** How the pass at the last configuration ends the run: as it decides, or out of fuel if it would buy. */
  function Finish(c: Live, duration: real, strategy: Strategy): Run {
    match Decide(c.game, c.info, duration, strategy)
    case Stop(status, final) => Run(status, final)
    case Purchase(_) => Run(FuelExhausted, c.game)
  }

  /** The loop from state `g` with catalog `info`; `fuel` is the number of purchases still allowed. */
  function Loop(g: Game, info: ValidInfo, duration: real, strategy: Strategy, grow: Growth, fuel: nat): Run
    requires 0.0 < g.cps
  {
    Finish(Last(Trace(g, info, duration, strategy, grow, fuel)), duration, strategy)
  }

  /** A whole run: the loop started from a fresh state. */
  function Simulate(build: ValidInfo, duration: real, strategy: Strategy, grow: Growth, fuel: nat): Run {
    Loop(Start(), build, duration, strategy, grow, fuel)
  }

  /**
   * A pass of the trace is followed by another exactly when it buys and fuel
   * is left for it; the next configuration is the one the purchase leads to.
   */
  lemma TraceNext(g: Game, info: ValidInfo, duration: real, strategy: Strategy, grow: Growth, fuel: nat, k: nat)
    requires 0.0 < g.cps
    requires k < |Trace(g, info, duration, strategy, grow, fuel)|
    ensures var cs := Trace(g, info, duration, strategy, grow, fuel);
      var d := Decide(cs[k].game, cs[k].info, duration, strategy);
      && (k + 1 < |cs| <==> d.Purchase? && k < fuel)
      && (k + 1 < |cs| ==>
            cs[k + 1] == Config(Step(cs[k].game, cs[k].info, d.item), UpdateItem(cs[k].info, d.item, grow)))
  {
    var c := Config(g, info);
    IterateContinues<Live>(c, Advance(duration, strategy, grow), fuel, k);
    if k + 1 < |Trace(g, info, duration, strategy, grow, fuel)| {
      IterateSucc<Live>(c, Advance(duration, strategy, grow), fuel, k);
    }
  }

  /** What the loop body does next: wait out the rest, fail on a missing item, or wait and buy. */
  datatype Move = OutOfTime | Missing(item: string) | Buy(item: string, wait: real)

  /**
   * The deciding half of a loop pass on the live state: ask the strategy,
   * look the item up and compare its wait with the time left. The move it
   * returns is the one `Decide` describes, and a purchase comes with the
   * wait to make before it.
   */
  method NextMove(state: ClickerState, info: ValidInfo, duration: real, strategy: Strategy) returns (m: Move)
    requires 0.0 < state.cps && state.time <= duration
    ensures m.OutOfTime? ==>
      Decide(state.Snapshot(), info, duration, strategy) == Stop(Finished, Waited(state.Snapshot(), duration - state.time))
    ensures m.Missing? ==>
      Decide(state.Snapshot(), info, duration, strategy) == Stop(UnknownItem(m.item), state.Snapshot())
    ensures m.Buy? ==>
      && Decide(state.Snapshot(), info, duration, strategy) == Purchase(m.item)
      && m.wait == SecondsUntil(state.Snapshot(), info.cost[m.item])
  {
    var choice := strategy(state.GetCookies(), state.GetCps(), state.GetHistory(), duration - state.GetTime(), info);
    if choice == None {
      return OutOfTime;
    }
    var item := choice.value;
    if item !in info.cost {
      return Missing(item);
    }
    var waitTime := state.TimeUntil(info.cost[item]);
    if waitTime + state.GetTime() > duration {
      return OutOfTime;
    }
    return Buy(item, waitTime);
  }

  /**
   * The buying loop of `simulate_clicker` on the live state, from whatever
   * valid state it starts in. It reports how it stopped and whether the rest
   * of the duration is still to be waited out; with that wait included, the
   * outcome is the run `Loop` describes from the starting state.
   */
  method BuyingLoop(state: ClickerState, build: ValidInfo, duration: real, strategy: Strategy, grow: Growth, fuel: nat)
    returns (status: Status, timeLeft: bool)
    requires state.Valid()
    modifies state
    ensures state.Valid()
    ensures timeLeft ==> status == Finished && state.time <= duration
    ensures Loop(old(state.Snapshot()), build, duration, strategy, grow, fuel) ==
      if timeLeft then Run(status, Waited(state.Snapshot(), duration - state.time)) else Run(status, state.Snapshot())
  {
    var info := build;
    timeLeft := false;
    var purchasesLeft := fuel;
    status := Finished;
    ghost var g0 := state.Snapshot();
    ghost var trace := Trace(g0, build, duration, strategy, grow, fuel);
    ghost var k := 0;
    ghost var done := Run(Finished, g0);
    ghost var exited := false;
    while state.GetTime() <= duration
      invariant 0.0 < state.cps
      invariant k + purchasesLeft == fuel && k < |trace| && trace[k] == Config(state.Snapshot(), info)
      invariant !timeLeft && status == Finished && !exited
      decreases purchasesLeft
    {
      TraceNext(g0, build, duration, strategy, grow, fuel, k);
      var move := NextMove(state, info, duration, strategy);
      if move.OutOfTime? {
        done := Run(Finished, Waited(state.Snapshot(), duration - state.time));
        assert Finish(trace[k], duration, strategy) == done;
        timeLeft, exited := true, true;
        break;
      }
      if move.Missing? {
        status := UnknownItem(move.item);
        done := Run(status, state.Snapshot());
        assert Finish(trace[k], duration, strategy) == done;
        exited := true;
        break;
      }
      if purchasesLeft == 0 {
        status := FuelExhausted;
        done := Run(status, state.Snapshot());
        assert Finish(trace[k], duration, strategy) == done;
        exited := true;
        break;
      }
      var item := move.item;
      ghost var g := state.Snapshot();
      state.Wait(move.wait);
      state.BuyItem(item, info.cost[item], info.cps[item]);
      StepIsWaitThenBuy(g, info, item);
      assert state.Snapshot() == Step(g, info, item);
      info := UpdateItem(info, item, grow);
      purchasesLeft := purchasesLeft - 1;
      k := k + 1;
    }
    if !exited {
      done := Run(Finished, state.Snapshot());
      assert Finish(trace[k], duration, strategy) == done;
    }
    TraceNext(g0, build, duration, strategy, grow, fuel, k);
    LoopFinishes(g0, build, duration, strategy, grow, fuel, k);
    TraceKeepsInv(g0, build, duration, strategy, grow, fuel, k);
  }

  /**
   * `simulate_clicker`: a fresh state, the buying loop, and then the rest of
   * the duration waited out when the loop stopped early. The final state and
   * status are those of `Simulate`.
   */
  method SimulateClicker(build: ValidInfo, duration: real, strategy: Strategy, grow: Growth, fuel: nat)
    returns (state: ClickerState, status: Status)
    ensures fresh(state) && state.Valid()
    ensures Run(status, state.Snapshot()) == Simulate(build, duration, strategy, grow, fuel)
  {
    state := new ClickerState();
    var timeLeft;
    status, timeLeft := BuyingLoop(state, build, duration, strategy, grow, fuel);
    while timeLeft
      invariant timeLeft ==> Run(status, Waited(state.Snapshot(), duration - state.time)) == Simulate(build, duration, strategy, grow, fuel)
      invariant !timeLeft ==> Run(status, state.Snapshot()) == Simulate(build, duration, strategy, grow, fuel)
      decreases timeLeft
    {
      ghost var g := state.Snapshot();
      state.Wait(duration - state.GetTime());
      assert state.Snapshot() == Waited(g, duration - g.time);
      timeLeft := false;
    }
    SimulateKeepsInv(build, duration, strategy, grow, fuel);
  }

  /** A run is decided by the last pass of its trace. */
  lemma LoopFinishes(g: Game, info: ValidInfo, duration: real, strategy: Strategy, grow: Growth, fuel: nat, k: nat)
    requires 0.0 < g.cps
    requires k + 1 == |Trace(g, info, duration, strategy, grow, fuel)|
    ensures Loop(g, info, duration, strategy, grow, fuel) == Finish(Trace(g, info, duration, strategy, grow, fuel)[k], duration, strategy)
  {
  }

  /** A buying pass keeps the state invariant. */
  lemma NextKeepsInv(c: Live, duration: real, strategy: Strategy, grow: Growth)
    requires Inv(c.game)
    ensures var n := Next(c, duration, strategy, grow);
      n.Some? ==> Inv(n.value.game)
  {
    var d := Decide(c.game, c.info, duration, strategy);
    if d.Purchase? {
      StepKeepsInv(c.game, c.info, d.item);
    }
  }

  /** Every configuration of the trace from a state satisfying the invariant satisfies it. */
  lemma TraceKeepsInv(g: Game, info: ValidInfo, duration: real, strategy: Strategy, grow: Growth, fuel: nat, k: nat)
    requires Inv(g)
    requires k < |Trace(g, info, duration, strategy, grow, fuel)|
    ensures Inv(Trace(g, info, duration, strategy, grow, fuel)[k].game)
  {
    var next := Advance(duration, strategy, grow);
    var p := (x: Live) => Inv(x.game);
    forall x | p(x) && next(x).Some?
      ensures p(next(x).value)
    {
      NextKeepsInv(x, duration, strategy, grow);
    }
    IterateInvariant<Live>(Config(g, info), next, fuel, p, k);
  }

  /** The loop keeps the state invariant. */
  lemma LoopKeepsInv(g: Game, info: ValidInfo, duration: real, strategy: Strategy, grow: Growth, fuel: nat)
    requires Inv(g)
    ensures Inv(Loop(g, info, duration, strategy, grow, fuel).game)
  {
    var cs := Trace(g, info, duration, strategy, grow, fuel);
    TraceKeepsInv(g, info, duration, strategy, grow, fuel, |cs| - 1);
    FinishWaitsOut(Last(cs), duration, strategy);
  }

  /** A whole run ends in a state that satisfies the state invariant. */
  lemma SimulateKeepsInv(build: ValidInfo, duration: real, strategy: Strategy, grow: Growth, fuel: nat)
    ensures Inv(Simulate(build, duration, strategy, grow, fuel).game)
  {
    StartInv();
    LoopKeepsInv(Start(), build, duration, strategy, grow, fuel);
  }

  /** `later` extends `earlier` with purchases made no later than `duration`. */
  ghost predicate PurchasesAppended(earlier: seq<Record>, later: seq<Record>, duration: real) {
    && earlier <= later
    && forall i :: |earlier| <= i < |later| ==> later[i].item.Some? && later[i].time <= duration
  }

  lemma PurchasesAppendedTrans(a: seq<Record>, b: seq<Record>, c: seq<Record>, duration: real)
    requires PurchasesAppended(a, b, duration) && PurchasesAppended(b, c, duration)
    ensures PurchasesAppended(a, c, duration)
  {
    assert forall i :: |b| <= i < |c| ==> c[i].item.Some? && c[i].time <= duration;
    forall i | |a| <= i < |b|
      ensures c[i] == b[i]
    {
    }
  }

  /**
   * A buying pass never lowers the rate, the total or the time, lands no later
   * than the duration, and only appends a purchase to the history.
   */
  lemma NextMonotone(c: Live, duration: real, strategy: Strategy, grow: Growth)
    ensures var n := Next(c, duration, strategy, grow);
      n.Some? ==>
        && c.game.cps <= n.value.game.cps && c.game.total <= n.value.game.total
        && c.game.time <= n.value.game.time <= duration
        && PurchasesAppended(c.game.history, n.value.game.history, duration)
  {
    var d := Decide(c.game, c.info, duration, strategy);
    if d.Purchase? {
      StepBuys(c.game, c.info, d.item);
      SecondsUntilIsLeast(c.game, c.info.cost[d.item]);
    }
  }

  /**
   * Along the trace the rate, the total and the time never fall, and the
   * history only grows by purchases made no later than the duration.
   */
  lemma TraceMonotone(g: Game, info: ValidInfo, duration: real, strategy: Strategy, grow: Growth, fuel: nat, j: nat, k: nat)
    requires 0.0 < g.cps
    requires j <= k < |Trace(g, info, duration, strategy, grow, fuel)|
    ensures var cs := Trace(g, info, duration, strategy, grow, fuel);
      var a := cs[j].game;
      var c := cs[k].game;
      && a.cps <= c.cps && a.total <= c.total && a.time <= c.time
      && PurchasesAppended(a.history, c.history, duration)
  {
    var next := Advance(duration, strategy, grow);
    var a := Trace(g, info, duration, strategy, grow, fuel)[j].game;
    var p := (x: Live) =>
      a.cps <= x.game.cps && a.total <= x.game.total && a.time <= x.game.time
      && PurchasesAppended(a.history, x.game.history, duration);
    forall x | p(x) && next(x).Some?
      ensures p(next(x).value)
    {
      NextMonotone(x, duration, strategy, grow);
      PurchasesAppendedTrans(a.history, x.game.history, next(x).value.game.history, duration);
    }
    IterateInvariantFrom<Live>(Config(g, info), next, fuel, p, j, k);
  }

  /** Started no later than the duration, every configuration of the trace is no later than the duration. */
  lemma TraceWithinDuration(g: Game, info: ValidInfo, duration: real, strategy: Strategy, grow: Growth, fuel: nat, k: nat)
    requires 0.0 < g.cps && g.time <= duration
    requires k < |Trace(g, info, duration, strategy, grow, fuel)|
    ensures Trace(g, info, duration, strategy, grow, fuel)[k].game.time <= duration
  {
    var next := Advance(duration, strategy, grow);
    var p := (x: Live) => x.game.time <= duration;
    forall x | p(x) && next(x).Some?
      ensures p(next(x).value)
    {
      NextMonotone(x, duration, strategy, grow);
    }
    IterateInvariant<Live>(Config(g, info), next, fuel, p, k);
  }

  /**
   * The last pass of a run buys nothing: it keeps the rate and the history,
   * only waits (never past the duration when started before it), and keeps
   * the state invariant.
   */
  lemma FinishWaitsOut(c: Live, duration: real, strategy: Strategy)
    ensures var r := Finish(c, duration, strategy).game;
      && r.cps == c.game.cps && r.history == c.game.history
      && c.game.total <= r.total && c.game.time <= r.time
      && (c.game.time <= duration ==> r.time <= duration)
      && (Inv(c.game) ==> Inv(r))
  {
    var g := c.game;
    var d := Decide(g, c.info, duration, strategy);
    var r := Finish(c, duration, strategy).game;
    if d.Stop? && d.status == Finished && g.time <= duration {
      var t := duration - g.time;
      assert r == Waited(g, t);
      MulMonotone(g.cps, 0.0, t);
      assert g.cps * 0.0 == 0.0;
      assert r.total == g.total + g.cps * t && r.time == duration by {
        if t <= 0.0 {
          assert t == 0.0;
        }
      }
      if Inv(g) {
        WaitedKeepsInv(g, t);
      }
    } else {
      assert r == g;
    }
  }

  /** The loop never lowers the rate, the total or the time. */
  lemma LoopMonotone(g: Game, info: ValidInfo, duration: real, strategy: Strategy, grow: Growth, fuel: nat)
    requires 0.0 < g.cps
    ensures var r := Loop(g, info, duration, strategy, grow, fuel).game;
      g.cps <= r.cps && g.total <= r.total && g.time <= r.time
  {
    var cs := Trace(g, info, duration, strategy, grow, fuel);
    TraceMonotone(g, info, duration, strategy, grow, fuel, 0, |cs| - 1);
    FinishWaitsOut(Last(cs), duration, strategy);
  }

  /**
   * The loop only appends to the history, and every record it appends is a
   * purchase made no later than the duration.
   */
  lemma LoopAppendsPurchases(g: Game, info: ValidInfo, duration: real, strategy: Strategy, grow: Growth, fuel: nat)
    requires 0.0 < g.cps
    ensures PurchasesAppended(g.history, Loop(g, info, duration, strategy, grow, fuel).game.history, duration)
  {
    var cs := Trace(g, info, duration, strategy, grow, fuel);
    TraceMonotone(g, info, duration, strategy, grow, fuel, 0, |cs| - 1);
    FinishWaitsOut(Last(cs), duration, strategy);
  }

  /**
   * Started no later than the duration, the loop never runs past it, and a
   * run that finishes normally ends exactly at the duration.
   */
  lemma LoopEndsAtDuration(g: Game, info: ValidInfo, duration: real, strategy: Strategy, grow: Growth, fuel: nat)
    requires 0.0 < g.cps && g.time <= duration
    ensures Loop(g, info, duration, strategy, grow, fuel).game.time <= duration
    ensures Loop(g, info, duration, strategy, grow, fuel).status == Finished ==>
            Loop(g, info, duration, strategy, grow, fuel).game.time == duration
  {
    var cs := Trace(g, info, duration, strategy, grow, fuel);
    TraceWithinDuration(g, info, duration, strategy, grow, fuel, |cs| - 1);
  }

  /** A pass that buys, with fuel left, hands the rest of the run to the loop from the state it leads to. */
  lemma LoopUnfold(g: Game, info: ValidInfo, duration: real, strategy: Strategy, grow: Growth, fuel: nat)
    requires 0.0 < g.cps && 0 < fuel
    requires Decide(g, info, duration, strategy).Purchase?
    ensures var item := Decide(g, info, duration, strategy).item;
      Loop(g, info, duration, strategy, grow, fuel) ==
      Loop(Step(g, info, item), UpdateItem(info, item, grow), duration, strategy, grow, fuel - 1)
  {
    var item := Decide(g, info, duration, strategy).item;
    StepBuys(g, info, item);
    var next := Advance(duration, strategy, grow);
    assert next(Config(g, info)) == Some(Config(Step(g, info, item), UpdateItem(info, item, grow)));
    IterateUnfold<Live>(Config(g, info), next, fuel);
  }

  /**
   * When the strategy names a catalog item and a purchase is still allowed,
   * the item is bought next exactly when the wait for it ends no later than
   * the duration (a purchase landing exactly on the duration is made). The
   * purchase is then logged at the end of the wait, with the total reached by
   * then.
   */
  lemma PurchaseWithinBudget(g: Game, info: ValidInfo, duration: real, strategy: Strategy, grow: Growth, fuel: nat, item: string)
    requires 0.0 < g.cps && g.time <= duration && 0 < fuel
    requires strategy(g.cookies, g.cps, g.history, duration - g.time, info) == Some(item)
    requires item in info.cost
    ensures var r := Loop(g, info, duration, strategy, grow, fuel).game;
            (|g.history| < |r.history| && r.history[|g.history|].item == Some(item))
              <==> g.time + SecondsUntil(g, info.cost[item]) <= duration
    ensures g.time + SecondsUntil(g, info.cost[item]) <= duration ==>
              Loop(g, info, duration, strategy, grow, fuel).game.history[|g.history|] == BuyRecord(g, info, item)
  {
    if g.time + SecondsUntil(g, info.cost[item]) <= duration {
      assert Decide(g, info, duration, strategy) == Purchase(item);
      PurchaseLogged(g, info, duration, strategy, grow, fuel, item);
    } else {
      assert Decide(g, info, duration, strategy) == Stop(Finished, Waited(g, duration - g.time));
      StopWaitsOut(g, info, duration, strategy, grow, fuel);
    }
  }

  /** A pass that buys, with fuel left, logs its purchase at the next position of the final history. */
  lemma PurchaseLogged(g: Game, info: ValidInfo, duration: real, strategy: Strategy, grow: Growth, fuel: nat, item: string)
    requires 0.0 < g.cps && 0 < fuel
    requires Decide(g, info, duration, strategy) == Purchase(item)
    ensures var r := Loop(g, info, duration, strategy, grow, fuel).game;
      |g.history| < |r.history| && r.history[|g.history|] == BuyRecord(g, info, item)
  {
    var cs := Trace(g, info, duration, strategy, grow, fuel);
    var next := Step(g, info, item);
    StepBuys(g, info, item);
    TraceNext(g, info, duration, strategy, grow, fuel, 0);
    TraceMonotone(g, info, duration, strategy, grow, fuel, 1, |cs| - 1);
    FinishWaitsOut(Last(cs), duration, strategy);
    KeptRecord(next.history, Last(cs).game.history, duration, |g.history|);
  }

  /** A pass that stops normally ends the run: the rest of the duration is waited out and nothing is bought. */
  lemma StopWaitsOut(g: Game, info: ValidInfo, duration: real, strategy: Strategy, grow: Growth, fuel: nat)
    requires 0.0 < g.cps && g.time <= duration
    requires Decide(g, info, duration, strategy) == Stop(Finished, Waited(g, duration - g.time))
    ensures Loop(g, info, duration, strategy, grow, fuel) == Run(Finished, Waited(g, duration - g.time))
  {
    assert Trace(g, info, duration, strategy, grow, fuel) == [Config(g, info)];
  }

  /**
   * A whole run: the final state satisfies the invariant; with a non-negative
   * duration time never passes it and a normal finish lands exactly on it;
   * with a negative duration nothing happens at all; every purchase in the
   * history was made no later than the duration.
   */
  lemma SimulateBounds(build: ValidInfo, duration: real, strategy: Strategy, grow: Growth, fuel: nat)
    ensures var r := Simulate(build, duration, strategy, grow, fuel);
      && Inv(r.game)
      && (0.0 <= duration ==> r.game.time <= duration)
      && (0.0 <= duration && r.status == Finished ==> r.game.time == duration)
      && (duration < 0.0 ==> r == Run(Finished, Start()))
      && (forall i :: 1 <= i < |r.game.history| ==> r.game.history[i].time <= duration)
  {
    SimulateKeepsInv(build, duration, strategy, grow, fuel);
    LoopAppendsPurchases(Start(), build, duration, strategy, grow, fuel);
    if 0.0 <= duration {
      LoopEndsAtDuration(Start(), build, duration, strategy, grow, fuel);
    } else {
      assert Trace(Start(), build, duration, strategy, grow, fuel) == [Config(Start(), build)];
    }
  }

  /**
   * A strategy that declines at the start ends purchasing at once: the whole
   * duration is waited out at the initial rate of 1.0 and the history keeps
   * only its initial entry.
   */
  lemma DecliningStrategyWaitsOut(build: ValidInfo, duration: real, strategy: Strategy, grow: Growth, fuel: nat)
    requires 0.0 <= duration
    requires strategy(0.0, 1.0, [InitialRecord], duration, build) == None
    ensures Simulate(build, duration, strategy, grow, fuel) == Run(Finished, Game(duration, duration, duration, 1.0, [InitialRecord]))
  {
  }

  /** `strategy_none` buys nothing: the final total is 1.0 times the duration and the history has one entry. */
  lemma StrategyNoneWaitsOut(build: ValidInfo, duration: real, grow: Growth, fuel: nat)
    requires 0.0 <= duration
    ensures var r := Simulate(build, duration, StrategyNone, grow, fuel);
      r.status == Finished && r.game.total == 1.0 * duration && r.game.history == [InitialRecord]
  {
    DecliningStrategyWaitsOut(build, duration, StrategyNone, grow, fuel);
  }

  /**
   * `strategy_cursor_broken` against a Cursor that costs more than can be
   * produced in the duration: the engine treats the unreachable choice as a
   * refusal, so the run is the same as with `strategy_none`.
   */
  lemma BrokenCursorWaitsOut(build: ValidInfo, duration: real, grow: Growth, fuel: nat)
    requires 0.0 <= duration
    requires "Cursor" in build.cost && duration < build.cost["Cursor"]
    ensures Simulate(build, duration, StrategyCursorBroken, grow, fuel) == Run(Finished, Game(duration, duration, duration, 1.0, [InitialRecord]))
  {
    SecondsUntilIsLeast(Start(), build.cost["Cursor"]);
  }

  /** `strategy_cursor_broken` against a catalog without a Cursor fails on the lookup before anything happens. */
  lemma BrokenCursorMissing(build: ValidInfo, duration: real, grow: Growth, fuel: nat)
    requires 0.0 <= duration
    requires "Cursor" !in build.cost
    ensures Simulate(build, duration, StrategyCursorBroken, grow, fuel) == Run(UnknownItem("Cursor"), Start())
  {
  }

  /** A Cursor costing 15.0 and a strategy that never buys, over 5.0 seconds: total 5.0 and a one-entry history. */
  lemma ScenarioNeverBuys(grow: Growth, fuel: nat)
    ensures var r := Simulate(BuildInfo(["Cursor"], map["Cursor" := 15.0], map["Cursor" := 0.1]), 5.0, StrategyNone, grow, fuel);
      r.game.total == 5.0 && r.game.history == [InitialRecord]
  {
    StrategyNoneWaitsOut(BuildInfo(["Cursor"], map["Cursor" := 15.0], map["Cursor" := 0.1]), 5.0, grow, fuel);
  }

  /** The same Cursor with the broken strategy over 5.0 seconds: it is never affordable, so again total 5.0 and a one-entry history. */
  lemma ScenarioBrokenCursor(grow: Growth, fuel: nat)
    ensures var r := Simulate(BuildInfo(["Cursor"], map["Cursor" := 15.0], map["Cursor" := 0.1]), 5.0, StrategyCursorBroken, grow, fuel);
      r.game.total == 5.0 && |r.game.history| == 1
  {
    BrokenCursorWaitsOut(BuildInfo(["Cursor"], map["Cursor" := 15.0], map["Cursor" := 0.1]), 5.0, grow, fuel);
  }

  /**
   * Items A (cost 5.0, +1.0 cps) and B (cost 500.0, +2.0 cps) over 100.0
   * seconds with the cheapest-item strategy: the first purchase is A, at time
   * 5.0, when 5.0 cookies have been produced.
   */
  lemma ScenarioCheapFirstPurchase(grow: Growth, fuel: nat)
    requires 0 < fuel
    ensures var r := Simulate(BuildInfo(["A", "B"], map["A" := 5.0, "B" := 500.0], map["A" := 1.0, "B" := 2.0]), 100.0, CheapChoice, grow, fuel);
      2 <= |r.game.history| && r.game.history[1] == Record(5.0, Some("A"), 5.0, 5.0)
  {
    var build: ValidInfo := BuildInfo(["A", "B"], map["A" := 5.0, "B" := 500.0], map["A" := 1.0, "B" := 2.0]);
    assert FirstCheapest(build, 2) == 0;
    assert CheapChoice(0.0, 1.0, [InitialRecord], 100.0, build) == Some("A");
    SecondsUntilIsLeast(Start(), 5.0);
    var wait := SecondsUntil(Start(), 5.0);
    assert wait.Floor == 5;
    StartInv();
    PurchaseWithinBudget(Start(), build, 100.0, CheapChoice, grow, fuel, "A");
  }

  /**
   * Two purchases of the same item in a row, the second paid out of what the
   * first left over, append two records with the same time: the end of the
   * first wait.
   */
  lemma TwoStepsSameInstant(g: Game, info: ValidInfo, grow: Growth, item: string)
    requires 0.0 < g.cps && item in info.cost
    requires UpdateItem(info, item, grow).cost[item] <= Step(g, info, item).cookies
    ensures 0.0 < Step(g, info, item).cps
    ensures var g2 := Step(Step(g, info, item), UpdateItem(info, item, grow), item);
      && |g.history| + 2 == |g2.history|
      && g2.history[|g.history|].time == g2.history[|g.history| + 1].time == g.time + SecondsUntil(g, info.cost[item])
  {
    var g1 := Step(g, info, item);
    var info1 := UpdateItem(info, item, grow);
    var g2 := Step(g1, info1, item);
    StepBuys(g, info, item);
    StepBuys(g1, info1, item);
    assert SecondsUntil(g1, info1.cost[item]) == 0.0;
    TwoRecordsKept(g.history, g1.history, g2.history, g2.history, BuyRecord(g, info, item), BuyRecord(g1, info1, item));
  }

  /**
   * A purchase whose price is already in hand needs no wait, so when the loop
   * buys an item and can pay for its next purchase out of what is left, the
   * two records carry the same time.
   */
  lemma RepurchaseAtSameInstant(g: Game, info: ValidInfo, duration: real, strategy: Strategy, grow: Growth, fuel: nat, item: string)
    requires 0.0 < g.cps && 2 <= fuel
    requires Decide(g, info, duration, strategy) == Purchase(item)
    requires Decide(Step(g, info, item), UpdateItem(info, item, grow), duration, strategy) == Purchase(item)
    requires UpdateItem(info, item, grow).cost[item] <= Step(g, info, item).cookies
    ensures var r := Loop(g, info, duration, strategy, grow, fuel).game;
      && |g.history| + 1 < |r.history|
      && r.history[|g.history|].time == r.history[|g.history| + 1].time == g.time + SecondsUntil(g, info.cost[item])
  {
    var cs := Trace(g, info, duration, strategy, grow, fuel);
    TwoStepsSameInstant(g, info, grow, item);
    TraceNext(g, info, duration, strategy, grow, fuel, 0);
    TraceNext(g, info, duration, strategy, grow, fuel, 1);
    var g2 := cs[2].game;
    TraceMonotone(g, info, duration, strategy, grow, fuel, 2, |cs| - 1);
    FinishWaitsOut(Last(cs), duration, strategy);
    KeptTimes(g2.history, Last(cs).game.history, duration, |g.history|, g.time + SecondsUntil(g, info.cost[item]));
  }

  /** The record at position `n` of a history survives any later appends. */
  lemma KeptRecord(h: seq<Record>, r: seq<Record>, duration: real, n: nat)
    requires PurchasesAppended(h, r, duration) && n < |h|
    ensures n < |r| && r[n] == h[n]
  {
  }

  /** Records at positions `n` and `n + 1` of a history survive any later appends. */
  lemma KeptTimes(h: seq<Record>, r: seq<Record>, duration: real, n: nat, t: real)
    requires PurchasesAppended(h, r, duration) && n + 2 == |h| && h[n].time == t && h[n + 1].time == t
    ensures n + 1 < |r| && r[n].time == t && r[n + 1].time == t
  {
    assert r[n] == h[n] && r[n + 1] == h[n + 1];
  }

  lemma TwoRecordsKept(h: seq<Record>, h1: seq<Record>, h2: seq<Record>, r: seq<Record>, b0: Record, b1: Record)
    requires h1 == h + [b0] && h2 == h1 + [b1] && h2 <= r
    ensures |h| + 1 < |r| && r[|h|] == b0 && r[|h| + 1] == b1
  {
    assert h2[|h|] == b0;
  }

  /**
   * Two purchases at the same instant. With a Cursor of cost at most 0.5
   * whose price does not grow, `strategy_cursor_broken` buys it at time 1.0
   * with 1.0 cookie in hand, and what is left over pays for it again with no
   * wait: the second record has the same time as the first.
   */
  lemma ScenarioSameInstant(c: real, grow: Growth, fuel: nat)
    requires 0.0 < c <= 0.5 && grow("Cursor", c) == c && 2 <= fuel
    ensures var r := Simulate(BuildInfo(["Cursor"], map["Cursor" := c], map["Cursor" := 0.0]), 10.0, StrategyCursorBroken, grow, fuel);
      3 <= |r.game.history| && r.game.history[1].time == 1.0 && r.game.history[2].time == 1.0
  {
    var build: ValidInfo := BuildInfo(["Cursor"], map["Cursor" := c], map["Cursor" := 0.0]);
    var n := Ceil((c - 0.0) / 1.0);
    assert 0.0 < n as real < 2.0;
    assert n == 1;
    assert SecondsUntil(Start(), c) == 1.0;
    assert Decide(Start(), build, 10.0, StrategyCursorBroken) == Purchase("Cursor");
    var g1 := Game(1.0, 1.0 - c, 1.0, 1.0, [InitialRecord, Record(1.0, Some("Cursor"), c, 1.0)]);
    assert Step(Start(), build, "Cursor") == g1;
    var info1 := UpdateItem(build, "Cursor", grow);
    assert info1.cost["Cursor"] == c;
    assert SecondsUntil(g1, c) == 0.0;
    assert Decide(g1, info1, 10.0, StrategyCursorBroken) == Purchase("Cursor");
    RepurchaseAtSameInstant(Start(), build, 10.0, StrategyCursorBroken, grow, fuel, "Cursor");
  }
}
