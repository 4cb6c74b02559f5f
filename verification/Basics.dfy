/** What several models share. */
module Basics {

  datatype Opt<T> = None | Some(v: T)

  function Pow2(k: nat): (p: nat)
    ensures p > 0
  {
    if k == 0 then 1 else 2 * Pow2(k - 1)
  }

  function One(b: bool): nat { if b then 1 else 0 }

  /** How many of the steps from i up to j are thread t's, in the schedule ts. */
  function OwnSteps(ts: seq<nat>, t: nat, i: nat, j: nat): nat
    requires i <= j <= |ts|
  {
    if i == j then 0 else OwnSteps(ts, t, i, j - 1) + One(ts[j - 1] == t)
  }
}
