/** The pre-filter in front of every book. */
module LobFilters {
  import opened Options

  datatype LobFilter = MaxLevelPct(pct: real) | MaxLevel(max: nat)
  {
    function Factor(sideIsBid: bool): real
      requires MaxLevelPct?
    {
      if sideIsBid then 1.0 - pct / 100.0 else 1.0 + pct / 100.0
    }

    function Threshold(best: real, sideIsBid: bool): real
      requires MaxLevelPct?
    {
      best * Factor(sideIsBid)
    }

    // Whether `price` is within the window below the best bid or above the best ask.
    predicate InWindow(best: Option<real>, price: real, sideIsBid: bool)
      requires MaxLevelPct?
    {
      match best
      case None => true
      case Some(b) => if sideIsBid then price >= Threshold(b, true) else price <= Threshold(b, false)
    }

    predicate ShouldInclude(bestBid: Option<real>, bestAsk: Option<real>, price: real, amount: real,
                            sideIsBid: bool, levelsOnSide: nat, priceExists: bool)
    {
      if amount == 0.0 then true
      else if MaxLevelPct? then InWindow(if sideIsBid then bestBid else bestAsk, price, sideIsBid)
      else if priceExists then true
      else levelsOnSide < max
    }
  }
}
