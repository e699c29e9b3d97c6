/** The random source the game draws from (Python's `random` module state),
    injected as a fixed sequence of draws so that every run is determined. */
module Random {
  /** One draw below n from the draws to come, and the draws left after it. */
  function Take(draws: seq<nat>, n: nat): (r: (nat, seq<nat>))
    requires n > 0
    ensures r.0 < n && |r.1| == if draws == [] then 0 else |draws| - 1
  {
    if draws == [] then (0, []) else (draws[0] % n, draws[1..])
  }

  class Rng {
    /** The draws still to come; once they run out every draw is 0. */
    var draws: seq<nat>

    constructor (draws: seq<nat>)
      ensures this.draws == draws
    {
      this.draws := draws;
    }

    /** One uniform draw below n, as `random.choice` and `random.shuffle` make. */
    method Below(n: nat) returns (k: nat)
      requires n > 0
      modifies this
      ensures k < n
      ensures k == (if old(draws) == [] then 0 else old(draws)[0] % n)
      ensures draws == (if old(draws) == [] then [] else old(draws)[1..])
      ensures (k, draws) == Take(old(draws), n)
    {
      if draws == [] {
        k := 0;
      } else {
        k := draws[0] % n;
        draws := draws[1..];
      }
    }
  }
}
