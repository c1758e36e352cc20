/**
 * A step function iterated a bounded number of times: the shape of any loop
 * that, pass after pass, either moves to a next state or stops. Everything
 * here holds for an arbitrary step function, so the simulator's loop inherits
 * it without redoing the induction.
 */
module Iteration {
  import opened Wrappers

  /**
   * The states met from `c`: each is followed by the state `next` moves it
   * to, until `next` stops or `fuel` moves have been made.
   */
  function Iterate<C>(c: C, next: C -> Option<C>, fuel: nat): (cs: seq<C>)
    ensures 1 <= |cs| <= fuel + 1 && cs[0] == c
    decreases fuel
  {
    match next(c)
    case None => [c]
    case Some(d) => if fuel == 0 then [c] else [c] + Iterate(d, next, fuel - 1)
  }

  function Last<C>(cs: seq<C>): C
    requires 0 < |cs|
  {
    cs[|cs| - 1]
  }

  /** A move with fuel left puts the iteration from the moved-to state behind the first one. */
  lemma IterateUnfold<C>(c: C, next: C -> Option<C>, fuel: nat)
    requires next(c).Some? && 0 < fuel
    ensures Iterate(c, next, fuel) == [c] + Iterate(next(c).value, next, fuel - 1)
    ensures Last(Iterate(c, next, fuel)) == Last(Iterate(next(c).value, next, fuel - 1))
  {
    var rest := Iterate(next(c).value, next, fuel - 1);
    assert ([c] + rest)[|rest|] == rest[|rest| - 1];
  }

  /** A state is followed by another exactly when `next` moves it and fuel is left for the move. */
  lemma {:induction false} IterateContinues<C>(c: C, next: C -> Option<C>, fuel: nat, k: nat)
    requires k < |Iterate(c, next, fuel)|
    ensures var cs := Iterate(c, next, fuel);
      k + 1 < |cs| <==> next(cs[k]).Some? && k < fuel
    decreases fuel
  {
    if 0 < k {
      IterateContinues(next(c).value, next, fuel - 1, k - 1);
    }
  }

  /** The state after a state is the one `next` moves it to. */
  lemma {:induction false} IterateSucc<C>(c: C, next: C -> Option<C>, fuel: nat, k: nat)
    requires k + 1 < |Iterate(c, next, fuel)|
    ensures var cs := Iterate(c, next, fuel);
      next(cs[k]).Some? && next(cs[k]).value == cs[k + 1]
    decreases fuel
  {
    if 0 < k {
      IterateSucc(next(c).value, next, fuel - 1, k - 1);
    }
  }

  /** A property that every move preserves holds of every state met from a state that has it. */
  lemma {:induction false} IterateInvariant<C>(c: C, next: C -> Option<C>, fuel: nat, p: C -> bool, k: nat)
    requires p(c) && k < |Iterate(c, next, fuel)|
    requires forall x :: p(x) && next(x).Some? ==> p(next(x).value)
    ensures p(Iterate(c, next, fuel)[k])
    decreases fuel
  {
    if 0 < k {
      IterateInvariant(next(c).value, next, fuel - 1, p, k - 1);
    }
  }

  /** A property that every move preserves holds from the first state met that has it onwards. */
  lemma {:induction false} IterateInvariantFrom<C>(c: C, next: C -> Option<C>, fuel: nat, p: C -> bool, j: nat, k: nat)
    requires j <= k < |Iterate(c, next, fuel)|
    requires p(Iterate(c, next, fuel)[j])
    requires forall x :: p(x) && next(x).Some? ==> p(next(x).value)
    ensures p(Iterate(c, next, fuel)[k])
    decreases fuel
  {
    if j == 0 {
      IterateInvariant(c, next, fuel, p, k);
    } else {
      IterateInvariantFrom(next(c).value, next, fuel - 1, p, j - 1, k - 1);
    }
  }
}
