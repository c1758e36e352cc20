/**
 * Purchase strategies. A strategy looks at the cookies in hand, the rate, the
 * history, the time left and the catalog, and names the item to buy next or
 * declines. An item is reachable when its cost is at most the cookies that
 * would be in hand after waiting out the time left.
 *
 * Each scanning strategy is given twice: as a function (the value handed to
 * the simulator, defined through a scan over a prefix of the item list) and
 * as the loop that keeps a running best, proved to compute the same choice.
 */
module Strategies {
  import opened Wrappers
  import opened Catalog
  import opened ClickerStates

  type Strategy = (real, real, seq<Record>, real, ValidInfo) -> Option<string>

  /** The most cookies obtainable in the time left without buying anything. */
  function Reach(cookies: real, cps: real, timeLeft: real): real {
    cookies + cps * timeLeft
  }

  function CostAt(info: ValidInfo, j: nat): real
    requires j < |info.names|
  {
    info.cost[info.names[j]]
  }

  function RatioAt(info: ValidInfo, j: nat): real
    requires j < |info.names|
  {
    info.cps[info.names[j]] / info.cost[info.names[j]]
  }

  /** Item `k` is the first of least cost in the whole catalog. */
  ghost predicate IsFirstCheapest(info: ValidInfo, k: nat)
    requires k < |info.names|
  {
    && (forall j :: 0 <= j < |info.names| ==> CostAt(info, k) <= CostAt(info, j))
    && (forall j :: 0 <= j < k ==> CostAt(info, k) < CostAt(info, j))
  }

  /** Among the first `n` items, item `k` is reachable and the first reachable one of greatest cost. */
  ghost predicate IsFirstDearest(info: ValidInfo, reach: real, n: nat, k: nat)
    requires k < n <= |info.names|
  {
    && CostAt(info, k) <= reach
    && (forall j :: 0 <= j < n && CostAt(info, j) <= reach ==> CostAt(info, j) <= CostAt(info, k))
    && (forall j :: 0 <= j < k && CostAt(info, j) <= reach ==> CostAt(info, j) < CostAt(info, k))
  }

  /**
   * Among the first `n` items, item `k` is reachable, has a positive ratio,
   * and is the first reachable one of greatest ratio.
   */
  ghost predicate IsFirstBest(info: ValidInfo, reach: real, n: nat, k: nat)
    requires k < n <= |info.names|
  {
    && CostAt(info, k) <= reach
    && 0.0 < RatioAt(info, k)
    && (forall j :: 0 <= j < n && CostAt(info, j) <= reach ==> RatioAt(info, j) <= RatioAt(info, k))
    && (forall j :: 0 <= j < k && CostAt(info, j) <= reach ==> RatioAt(info, j) < RatioAt(info, k))
  }

  /** Always names "Cursor", whether or not it exists or can be afforded in the time left. */
  function StrategyCursorBroken(cookies: real, cps: real, history: seq<Record>, timeLeft: real, info: ValidInfo): (r: Option<string>)
    ensures r == Some("Cursor")
  {
    Some("Cursor")
  }

  /** Never buys anything. */
  function StrategyNone(cookies: real, cps: real, history: seq<Record>, timeLeft: real, info: ValidInfo): (r: Option<string>)
    ensures r == None
  {
    None
  }

  // ---------------------------------------------------------------- cheapest

  /** Index of the first item of least cost among the first `n` items. */
  function FirstCheapest(info: ValidInfo, n: nat): (k: nat)
    requires 0 < n <= |info.names|
    ensures k < n
    ensures forall j :: 0 <= j < n ==> CostAt(info, k) <= CostAt(info, j)
    ensures forall j :: 0 <= j < k ==> CostAt(info, k) < CostAt(info, j)
  {
    if n == 1 then 0
    else
      var k := FirstCheapest(info, n - 1);
      if CostAt(info, n - 1) < CostAt(info, k) then n - 1 else k
  }

  /**
   * The cheapest item overall (the first of them on a tie), named only when it
   * is reachable. So nothing is named exactly when no item at all is reachable.
   */
  function CheapChoice(cookies: real, cps: real, history: seq<Record>, timeLeft: real, info: ValidInfo): (r: Option<string>)
    ensures r.None? <==> forall j :: 0 <= j < |info.names| ==> Reach(cookies, cps, timeLeft) < CostAt(info, j)
    ensures r.Some? ==> exists k :: 0 <= k < |info.names| && r.value == info.names[k]
                                 && CostAt(info, k) <= Reach(cookies, cps, timeLeft) && IsFirstCheapest(info, k)
  {
    if |info.names| == 0 then None
    else
      var k := FirstCheapest(info, |info.names|);
      if Reach(cookies, cps, timeLeft) >= CostAt(info, k) then Some(info.names[k]) else None
  }

  method StrategyCheap(cookies: real, cps: real, history: seq<Record>, timeLeft: real, info: ValidInfo)
    returns (choice: Option<string>)
    ensures choice == CheapChoice(cookies, cps, history, timeLeft, info)
  {
    var seen := false;  // false while the running cost is still +infinity
    var cost := 0.0;
    var item := "";
    var i := 0;
    while i < |info.names|
      invariant 0 <= i <= |info.names|
      invariant seen <==> 0 < i
      invariant seen ==> item == info.names[FirstCheapest(info, i)] && cost == CostAt(info, FirstCheapest(info, i))
    {
      if !seen || info.cost[info.names[i]] < cost {
        cost := info.cost[info.names[i]];
        item := info.names[i];
        seen := true;
      }
      i := i + 1;
    }
    if seen && cookies + cps * timeLeft >= cost {
      choice := Some(item);
    } else {
      choice := None;
    }
  }

  // ---------------------------------------------------------- most expensive

  /** Index of the first reachable item of greatest cost among the first `n` items, if any is reachable. */
  function FirstDearest(info: ValidInfo, reach: real, n: nat): (k: Option<nat>)
    requires n <= |info.names|
    ensures k.None? <==> forall j :: 0 <= j < n ==> reach < CostAt(info, j)
    ensures k.Some? ==> k.value < n && IsFirstDearest(info, reach, n, k.value)
  {
    if n == 0 then None
    else
      var k := FirstDearest(info, reach, n - 1);
      if (k.None? || CostAt(info, n - 1) > CostAt(info, k.value)) && reach >= CostAt(info, n - 1) then Some(n - 1)
      else k
  }

  /** The first reachable item of greatest cost, or nothing when no item is reachable. */
  function ExpensiveChoice(cookies: real, cps: real, history: seq<Record>, timeLeft: real, info: ValidInfo): (r: Option<string>)
    ensures r.None? <==> forall j :: 0 <= j < |info.names| ==> Reach(cookies, cps, timeLeft) < CostAt(info, j)
    ensures r.Some? ==> exists k :: 0 <= k < |info.names| && r.value == info.names[k]
                                 && IsFirstDearest(info, Reach(cookies, cps, timeLeft), |info.names|, k)
  {
    var reach := Reach(cookies, cps, timeLeft);
    match FirstDearest(info, reach, |info.names|)
    case None => None
    case Some(k) => if reach >= CostAt(info, k) then Some(info.names[k]) else None
  }

  method StrategyExpensive(cookies: real, cps: real, history: seq<Record>, timeLeft: real, info: ValidInfo)
    returns (choice: Option<string>)
    ensures choice == ExpensiveChoice(cookies, cps, history, timeLeft, info)
  {
    var seen := false;  // false while the running cost is still -infinity
    var cost := 0.0;
    var item: Option<string> := None;
    var i := 0;
    while i < |info.names|
      invariant 0 <= i <= |info.names|
      invariant seen == FirstDearest(info, cookies + cps * timeLeft, i).Some?
      invariant seen ==> var k := FirstDearest(info, cookies + cps * timeLeft, i).value;
        item == Some(info.names[k]) && cost == CostAt(info, k)
      invariant !seen ==> item == None
    {
      if (!seen || info.cost[info.names[i]] > cost) && cookies + cps * timeLeft >= info.cost[info.names[i]] {
        cost := info.cost[info.names[i]];
        item := Some(info.names[i]);
        seen := true;
      }
      i := i + 1;
    }
    if !seen || cookies + cps * timeLeft >= cost {
      choice := item;
    } else {
      choice := None;
    }
  }

  // -------------------------------------------------------------- best value

  /**
   * Index of the first reachable item among the first `n` whose cps/cost
   * ratio beats the running best, which starts at 0 and only moves on a
   * strictly greater ratio.
   */
  function FirstBest(info: ValidInfo, reach: real, n: nat): (k: Option<nat>)
    requires n <= |info.names|
    ensures k.None? <==> forall j :: 0 <= j < n && CostAt(info, j) <= reach ==> RatioAt(info, j) <= 0.0
    ensures k.Some? ==> k.value < n && IsFirstBest(info, reach, n, k.value)
  {
    if n == 0 then None
    else
      var k := FirstBest(info, reach, n - 1);
      var best := if k.None? then 0.0 else RatioAt(info, k.value);
      if RatioAt(info, n - 1) > best && reach >= CostAt(info, n - 1) then Some(n - 1) else k
  }

  /**
   * The first reachable item of greatest positive cps/cost ratio. An item of
   * ratio 0 is never named, nor one that only ties an earlier item; nothing is
   * named when every reachable item has ratio 0.
   */
  function BestChoice(cookies: real, cps: real, history: seq<Record>, timeLeft: real, info: ValidInfo): (r: Option<string>)
    ensures r.None? <==> forall j :: 0 <= j < |info.names| && CostAt(info, j) <= Reach(cookies, cps, timeLeft) ==> RatioAt(info, j) <= 0.0
    ensures r.Some? ==> exists k :: 0 <= k < |info.names| && r.value == info.names[k]
                                 && IsFirstBest(info, Reach(cookies, cps, timeLeft), |info.names|, k)
  {
    var reach := Reach(cookies, cps, timeLeft);
    match FirstBest(info, reach, |info.names|)
    case None => None
    case Some(k) => if reach >= CostAt(info, k) then Some(info.names[k]) else None
  }

  lemma FirstBestStep(info: ValidInfo, reach: real, i: nat)
    requires i < |info.names|
    ensures FirstBest(info, reach, i + 1) ==
      var k := FirstBest(info, reach, i);
      var best := if k.None? then 0.0 else RatioAt(info, k.value);
      if RatioAt(info, i) > best && reach >= CostAt(info, i) then Some(i) else k
  {
  }

  method StrategyBest(cookies: real, cps: real, history: seq<Record>, timeLeft: real, info: ValidInfo)
    returns (choice: Option<string>)
    ensures choice == BestChoice(cookies, cps, history, timeLeft, info)
  {
    ghost var reach := cookies + cps * timeLeft;
    ghost var k: Option<nat> := None;  // the scan so far, as FirstBest sees it
    var seen := false;  // false while the running cost is still -infinity
    var cost := 0.0;
    var ratio := 0.0;
    var item: Option<string> := None;
    var i := 0;
    while i < |info.names|
      invariant 0 <= i <= |info.names|
      invariant k == FirstBest(info, reach, i)
      invariant seen == k.Some?
      invariant seen ==> k.value < |info.names| && item == Some(info.names[k.value])
      invariant seen ==> cost == CostAt(info, k.value) && ratio == RatioAt(info, k.value)
      invariant !seen ==> item == None && ratio == 0.0
    {
      var name := info.names[i];
      FirstBestStep(info, reach, i);
      if info.cps[name] / info.cost[name] > ratio && cookies + cps * timeLeft >= info.cost[name] {
        cost := info.cost[name];
        ratio := info.cps[name] / cost;
        item := Some(name);
        seen := true;
        k := Some(i);
      }
      i := i + 1;
    }
    if !seen || cookies + cps * timeLeft >= cost {
      choice := item;
    } else {
      choice := None;
    }
    assert reach == Reach(cookies, cps, timeLeft);
  }
}
