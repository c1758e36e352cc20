/**
 * The catalog of purchasable items (the `BuildInfo` collaborator). Its real
 * implementation is not part of this model: only the contract the simulator
 * relies on is kept — an ordered list of item names, a cost and a
 * cookies-per-second increment per item, and an update that changes the
 * bought item's cost and nothing else.
 */
module Catalog {

  ghost predicate NoDuplicates(names: seq<string>) {
    forall i, j :: 0 <= i < j < |names| ==> names[i] != names[j]
  }

  datatype BuildInfo = BuildInfo(names: seq<string>, cost: map<string, real>, cps: map<string, real>)
  {
    /** Every listed item name is a key, listed once; costs are positive and increments non-negative. */
    ghost predicate Valid() {
      && (forall i :: 0 <= i < |names| ==> names[i] in cost)
      && cps.Keys == cost.Keys
      && NoDuplicates(names)
      && (forall n :: n in cost ==> 0.0 < cost[n])
      && (forall n :: n in cps ==> 0.0 <= cps[n])
    }
  }

  type ValidInfo = b: BuildInfo | b.Valid() witness BuildInfo([], map[], map[])

  /** The catalog's cost-growth rule: the new cost of an item from its name and current cost. */
  type Growth = f: (string, real) -> real | forall n, c :: 0.0 < c ==> 0.0 < f(n, c)
    witness (n: string, c: real) => c

  /** `update_item`: only the bought item's cost changes, to the growth rule's value. */
  function UpdateItem(info: ValidInfo, item: string, grow: Growth): (r: ValidInfo)
    requires item in info.cost
    ensures r.names == info.names && r.cps == info.cps
    ensures r.cost.Keys == info.cost.Keys
    ensures r.cost[item] == grow(item, info.cost[item])
    ensures forall n :: n in info.cost && n != item ==> r.cost[n] == info.cost[n]
  {
    info.(cost := info.cost[item := grow(item, info.cost[item])])
  }
}
