/**
 * The two modes share one decision function: the backtest's i-th log entry
 * is exactly what a live cycle would decide for the same pair of prices.
 */
module Consistency {
  import opened Wrappers
  import opened Decision
  import opened HistorySort
  import opened Backtest
  import opened Live

  /**
   * Replaying sorted trades i and i + 1 as a live cycle (reference i, fetched
   * price i + 1) gives the backtest's decision and moves the reference to
   * the same price the backtest moves to. The only live divergence is the
   * BUY-at-price-zero crash, which still carries the backtest's BUY signal.
   */
  lemma BacktestAgreesWithLive(history: seq<Trade>, i: nat, wallet: Sizing.Wallet)
    requires i < |Backtest.Run(history).entries|
    ensures var sorted := SortByDate(history);
            var c := Step(Running(sorted[i].price), Observation(Some(sorted[i + 1].price), wallet));
            && (c.event.Acted? || c.event == Crashed)
            && (c.event.Acted? ==> c.event.decision == Backtest.Run(history).entries[i].decision
                                   && c.state == Running(Backtest.Run(history).entries[i].price))
            && (c.event == Crashed ==> Backtest.Run(history).entries[i].decision.signal == Buy)
  {
    RunEntries(history);
  }

  /** The two-trade case read directly: one backtest entry, one live cycle, one signal. */
  lemma SameSignalBothModes(last: real, current: real, d1: int, d2: int, wallet: Sizing.Wallet)
    requires last != 0.0 && d1 <= d2
    ensures Backtest.Run([Trade(d1, last), Trade(d2, current)]).entries
            == [Entry(d2, current, Decide(last, current, Threshold))]
    ensures var c := Step(Running(last), Observation(Some(current), wallet));
            c.event != Crashed ==>
              && c.event == Acted(Backtest.Run([Trade(d1, last), Trade(d2, current)]).entries[0].decision,
                                  c.event.sizing)
              && c.state == Running(Backtest.Run([Trade(d1, last), Trade(d2, current)]).entries[0].price)
  {
    var h := [Trade(d1, last), Trade(d2, current)];
    SortByDateSortedStable(h);
    var sorted := SortByDate(h);
    assert sorted == h by {
      assert h[1..] == [Trade(d2, current)];
      assert h[1..][1..] == [];
      assert SortByDate(h[1..]) == [Trade(d2, current)];
    }
    assert h[1..] == [Trade(d2, current)];
    TwoTradesLogOneEntry(h);
    RunEntries(h);
  }

  /** A sorted two-trade history with a non-zero first price logs exactly one entry. */
  lemma TwoTradesLogOneEntry(h: seq<Trade>)
    requires |h| == 2 && h[0].price != 0.0 && SortByDate(h) == h
    ensures |Backtest.Run(h).entries| == 1
  {
    assert NoZeroReference(h[0].price, h[1..]);
    FoldHaltsOnZeroReference(h[0].price, h[1..]);
  }
}
