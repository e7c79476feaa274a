/** The gossipsub overlay parameters and their validation. */
module Params {

  datatype GossipSubParams = GossipSubParams(
    D: int, Dlo: int, Dhi: int, Dscore: int, Dout: int,
    historyLength: int, historyGossip: int,
    pruneBackoff: int, unsubscribeBackoff: int, graftFloodThreshold: int,
    opportunisticGraftPeers: int, opportunisticGraftTicks: nat)
  {
    predicate IsBootstrapper() { D == 0 && Dlo == 0 && Dhi == 0 && Dout == 0 }

    /** Integer halving as Go does it, towards zero. */
    function HalfD(): int { if D >= 0 then D / 2 else -((-D) / 2) }

    /** GossipSubParams.validate returns no error. */
    predicate Valid() {
      && historyGossip <= historyLength
      && Dscore <= Dhi
      && (IsBootstrapper()
          || (Dlo <= D <= Dhi && Dout < Dlo && Dout < HalfD()))
    }

    /** Validation does not look at signs, but the pruning slices need these two. */
    predicate Sliceable() { D >= 0 && Dscore >= 0 }
  }

  /** For validated parameters and a list that triggers pruning, the slices
      `plst[Dscore:]` and `plst[:D]` are in range exactly when D and Dscore are
      not negative. */
  lemma SlicesInRangeExactly(p: GossipSubParams, len: nat)
    requires p.Valid() && len >= p.Dhi
    ensures (0 <= p.Dscore <= len && 0 <= p.D <= len) <==> p.Sliceable()
  {
  }

  /** Validated parameters with which every list that triggers pruning is sliced
      out of range. */
  const NEGATIVE := GossipSubParams(-4, -5, -3, -3, -6, 5, 3, 60, 10, 10, 2, 60)

  lemma ValidatedSlicesCanFail(len: nat)
    ensures NEGATIVE.Valid() && len >= NEGATIVE.Dhi
    ensures !(0 <= NEGATIVE.Dscore <= len) && !(0 <= NEGATIVE.D <= len)
  {
  }
}
