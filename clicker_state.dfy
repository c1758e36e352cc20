/**
 * The game state of the simulator (`ClickerState`): elapsed time, cookies in
 * hand, cookies ever produced, production rate and the purchase history.
 */
module ClickerStates {
  import opened Wrappers

  /** One history entry: (time, item bought, its cost, total cookies at that moment). */
  datatype Record = Record(time: real, item: Option<string>, cost: real, total: real)

  /** The synthetic first history entry, standing for the start of the game. */
  const InitialRecord := Record(0.0, None, 0.0, 0.0)

  /** The value held by a `ClickerState` object. */
  datatype Game = Game(time: real, cookies: real, total: real, cps: real, history: seq<Record>)

  /** The state a fresh game starts in. */
  function Start(): Game {
    Game(0.0, 0.0, 0.0, 1.0, [InitialRecord])
  }

  /**
   * What every reachable state satisfies: cookies in hand are non-negative and
   * never exceed the total ever produced, the rate never falls below its
   * initial 1.0, and the history starts with the initial entry, is ordered by
   * time and by total, records only purchases after that entry, and lies in
   * the past of the current state.
   */
  ghost predicate Inv(g: Game) {
    && 0.0 <= g.cookies <= g.total
    && 1.0 <= g.cps
    && |g.history| >= 1
    && g.history[0] == InitialRecord
    && (forall i :: 1 <= i < |g.history| ==> g.history[i].item.Some?)
    && (forall i, j :: 0 <= i < j < |g.history| ==>
          g.history[i].time <= g.history[j].time && g.history[i].total <= g.history[j].total)
    && (forall i :: 0 <= i < |g.history| ==> g.history[i].time <= g.time && g.history[i].total <= g.total)
  }

  /** `math.ceil`: the least integer not below `x`. */
  function Ceil(x: real): (n: int)
    ensures x <= n as real < x + 1.0
  {
    -((-x).Floor)
  }

  lemma MulMonotone(a: real, x: real, y: real)
    requires 0.0 < a && x <= y
    ensures a * x <= a * y
    ensures x < y ==> a * x < a * y
  {
  }

  /** A wait below the exact quotient `y / a` produces less than `y`. */
  lemma ScaleBelow(a: real, u: real, y: real)
    requires 0.0 < a && u < y / a
    ensures a * u < y
  {
    MulMonotone(a, u, y / a);
  }

  /** A wait of at least the exact quotient `y / a` produces at least `y`. */
  lemma ScaleAbove(a: real, u: real, y: real)
    requires 0.0 < a && y / a <= u
    ensures y <= a * u
  {
    MulMonotone(a, y / a, u);
  }

  /** `time_until`: the whole number of seconds to wait before `target` cookies are in hand. */
  function SecondsUntil(g: Game, target: real): (t: real)
    requires 0.0 < g.cps
  {
    if g.cookies >= target then 0.0 else Ceil((target - g.cookies) / g.cps) as real
  }

  /**
   * The wait `time_until` reports is the least non-negative whole number of
   * seconds after which production has reached the target; it is zero
   * exactly when the target is already in hand.
   */
  lemma SecondsUntilIsLeast(g: Game, target: real)
    requires 0.0 < g.cps
    ensures var t := SecondsUntil(g, target);
      && 0.0 <= t && t == t.Floor as real
      && target <= g.cookies + g.cps * t
      && (1.0 <= t ==> g.cookies + g.cps * (t - 1.0) < target)
      && (t == 0.0 <==> target <= g.cookies)
  {
    if g.cookies < target {
      var n := Ceil((target - g.cookies) / g.cps);
      ScaleBelow(g.cps, n as real - 1.0, target - g.cookies);
      ScaleAbove(g.cps, n as real, target - g.cookies);
      assert SecondsUntil(g, target) == n as real;
    }
  }

  /** `wait`: nothing happens for a non-positive duration; otherwise time passes and cookies accrue at the current rate. */
  function Waited(g: Game, t: real): Game {
    if t <= 0.0 then g
    else g.(time := g.time + t, cookies := g.cookies + g.cps * t, total := g.total + g.cps * t)
  }

  /** `buy_item`: ignored when unaffordable; otherwise pays, raises the rate and logs the purchase. */
  function Bought(g: Game, name: string, cost: real, add: real): Game {
    if cost > g.cookies then g
    else g.(cookies := g.cookies - cost, cps := g.cps + add,
            history := g.history + [Record(g.time, Some(name), cost, g.total)])
  }

  lemma StartInv()
    ensures Inv(Start())
  {
  }

  /** Waiting keeps the invariant, never moves time back, and leaves the rate and the history alone. */
  lemma WaitedKeepsInv(g: Game, t: real)
    requires Inv(g)
    ensures Inv(Waited(g, t))
    ensures Waited(g, t).cps == g.cps && Waited(g, t).history == g.history
    ensures g.time <= Waited(g, t).time && g.total <= Waited(g, t).total
  {
    if t > 0.0 {
      MulMonotone(g.cps, 0.0, t);
    }
  }

  /**
   * A purchase with a non-negative cost and increment keeps the invariant,
   * never lowers the rate, and either changes nothing or appends exactly one
   * record while time and total stay put.
   */
  lemma BoughtKeepsInv(g: Game, name: string, cost: real, add: real)
    requires Inv(g) && 0.0 <= cost && 0.0 <= add
    ensures Inv(Bought(g, name, cost, add))
    ensures g.cps <= Bought(g, name, cost, add).cps
    ensures Bought(g, name, cost, add).time == g.time && Bought(g, name, cost, add).total == g.total
    ensures Bought(g, name, cost, add).history == g.history
         || Bought(g, name, cost, add).history == g.history + [Record(g.time, Some(name), cost, g.total)]
  {
    if cost <= g.cookies {
      var h := g.history + [Record(g.time, Some(name), cost, g.total)];
      assert forall i :: 0 <= i < |g.history| ==> h[i] == g.history[i];
    }
  }

  /** Waiting for the time `time_until` reports puts at least the target in hand. */
  lemma WaitUntilAffordable(g: Game, target: real)
    requires 0.0 < g.cps
    ensures target <= Waited(g, SecondsUntil(g, target)).cookies
  {
    SecondsUntilIsLeast(g, target);
  }

  class ClickerState {
    var time: real
    var cookies: real
    var total: real
    var cps: real
    var history: seq<Record>

    function Snapshot(): Game
      reads this
    {
      Game(time, cookies, total, cps, history)
    }

    ghost predicate Valid()
      reads this
    {
      Inv(Snapshot())
    }

    constructor ()
      ensures time == 0.0 && cookies == 0.0 && total == 0.0 && cps == 1.0
      ensures history == [InitialRecord]
      ensures Snapshot() == Start() && Valid()
    {
      total := 0.0;
      cookies := 0.0;
      time := 0.0;
      cps := 1.0;
      history := [InitialRecord];
    }

    function GetCookies(): (c: real)
      reads this
      ensures c == cookies
    {
      cookies
    }

    function GetCps(): (r: real)
      reads this
      ensures r == cps
    {
      cps
    }

    function GetTime(): (t: real)
      reads this
      ensures t == time
    {
      time
    }

    /** A sequence is a value, so the caller's copy cannot alias the object's history. */
    function GetHistory(): (h: seq<Record>)
      reads this
      ensures h == history
    {
      history
    }

    function TimeUntil(target: real): (t: real)
      reads this
      requires 0.0 < cps
      ensures t == SecondsUntil(Snapshot(), target)
      ensures 0.0 <= t && t == t.Floor as real
      ensures target <= cookies + cps * t
      ensures 1.0 <= t ==> cookies + cps * (t - 1.0) < target
      ensures t == 0.0 <==> target <= cookies
    {
      SecondsUntilIsLeast(Snapshot(), target);
      SecondsUntil(Snapshot(), target)
    }

    method Wait(t: real)
      modifies this
      ensures old(Valid()) ==> Valid()
      ensures Snapshot() == Waited(old(Snapshot()), t)
      ensures t <= 0.0 ==> Snapshot() == old(Snapshot())
      ensures cps == old(cps) && history == old(history)
    {
      if Valid() {
        WaitedKeepsInv(Snapshot(), t);
      }
      if t <= 0.0 {
        return;
      } else {
        time := time + t;
        cookies := cookies + cps * t;
        total := total + cps * t;
      }
    }

    method BuyItem(name: string, cost: real, add: real)
      modifies this
      ensures Snapshot() == Bought(old(Snapshot()), name, cost, add)
      ensures cost > old(cookies) ==> Snapshot() == old(Snapshot())
      ensures old(Valid()) && 0.0 <= cost && 0.0 <= add ==> Valid() && old(cps) <= cps
    {
      if Valid() && 0.0 <= cost && 0.0 <= add {
        BoughtKeepsInv(Snapshot(), name, cost, add);
      }
      if cost > cookies {
        return;
      } else {
        cookies := cookies - cost;
        cps := cps + add;
        history := history + [Record(time, Some(name), cost, total)];
      }
    }
  }
}
