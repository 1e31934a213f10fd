/**
 * The backtest runner: sort the history by date, seed the reference price
 * with the oldest trade and classify every later trade against the one
 * before it. Nothing is submitted; the result is the log of decisions.
 */
module Backtest {
  import opened Wrappers
  import opened Decision
  import opened HistorySort

  /** One logged line: the trade's date and price and the decision taken. */
  datatype Entry = Entry(date: int, price: real, decision: Outcome)

  /**
   * Why a replay stopped early: `history[0]` on an empty history, or a
   * division by a zero reference price. Both raise in `troncycle.py`.
   */
  datatype Halt = EmptyHistory | ZeroReference

  /** The entries logged before the run ended, and why it ended early, if it did. */
  datatype Replay = Replay(entries: seq<Entry>, halt: Option<Halt>)

  /** The reference price in force for trade `i`: the seed, then the previous trade's price. */
  function RefAt(last: real, trades: seq<Trade>, i: nat): real
    requires i <= |trades|
  {
    if i == 0 then last else trades[i - 1].price
  }

  /** True when no trade of `trades` is compared against a zero price. */
  ghost predicate NoZeroReference(last: real, trades: seq<Trade>)
  {
    forall i :: 0 <= i < |trades| ==> RefAt(last, trades, i) != 0.0
  }

  /** Shifting the seed: `trades` avoids zero references iff its tail does, from the head's price. */
  lemma NoZeroReferenceCons(last: real, trades: seq<Trade>)
    requires |trades| > 0 && last != 0.0
    ensures NoZeroReference(last, trades) <==> NoZeroReference(trades[0].price, trades[1..])
  {
    var tail := trades[1..];
    if NoZeroReference(trades[0].price, tail) {
      forall i | 0 <= i < |trades|
        ensures RefAt(last, trades, i) != 0.0
      {
        if i > 0 {
          assert RefAt(trades[0].price, tail, i - 1) != 0.0;
        }
      }
    }
    if NoZeroReference(last, trades) {
      forall i | 0 <= i < |tail|
        ensures RefAt(trades[0].price, tail, i) != 0.0
      {
        assert RefAt(last, trades, i + 1) != 0.0;
      }
    }
  }

  /** The loop body over the already sorted trades, starting from reference `last`. */
  function Fold(last: real, trades: seq<Trade>): (r: Replay)
    ensures r.halt.None? || r.halt == Some(ZeroReference)
    ensures |r.entries| <= |trades|
    ensures r.halt.None? ==> |r.entries| == |trades|
    decreases |trades|
  {
    if |trades| == 0 then Replay([], None)
    else if last == 0.0 then Replay([], Some(ZeroReference))
    else
      var t := trades[0];
      var rest := Fold(t.price, trades[1..]);
      Replay([Entry(t.date, t.price, Decide(last, t.price, Threshold))] + rest.entries, rest.halt)
  }

  /**
   * The replay halts exactly when some trade meets a zero reference price,
   * and then it halts at the first such trade.
   */
  lemma {:induction false} FoldHaltsOnZeroReference(last: real, trades: seq<Trade>)
    ensures Fold(last, trades).halt.None? <==> NoZeroReference(last, trades)
    ensures Fold(last, trades).halt.Some? ==>
              && |Fold(last, trades).entries| < |trades|
              && RefAt(last, trades, |Fold(last, trades).entries|) == 0.0
    decreases |trades|
  {
    if |trades| == 0 {
    } else if last == 0.0 {
      assert RefAt(last, trades, 0) == 0.0;
    } else {
      var rest := Fold(trades[0].price, trades[1..]);
      FoldHaltsOnZeroReference(trades[0].price, trades[1..]);
      NoZeroReferenceCons(last, trades);
      if rest.halt.Some? {
        assert RefAt(trades[0].price, trades[1..], |rest.entries|) == RefAt(last, trades, |rest.entries| + 1);
      }
    }
  }

  /** Entry `i` logs trade `i` and its decision against reference `i`. */
  lemma {:induction false} FoldEntries(last: real, trades: seq<Trade>)
    ensures forall i :: 0 <= i < |Fold(last, trades).entries| ==>
              && RefAt(last, trades, i) != 0.0
              && Fold(last, trades).entries[i] ==
                 Entry(trades[i].date, trades[i].price, Decide(RefAt(last, trades, i), trades[i].price, Threshold))
    decreases |trades|
  {
    if |trades| > 0 && last != 0.0 {
      var r := Fold(last, trades);
      var rest := Fold(trades[0].price, trades[1..]);
      FoldEntries(trades[0].price, trades[1..]);
      forall i | 0 <= i < |r.entries|
        ensures RefAt(last, trades, i) != 0.0
        ensures r.entries[i] == Entry(trades[i].date, trades[i].price,
                                      Decide(RefAt(last, trades, i), trades[i].price, Threshold))
      {
        if i > 0 {
          assert r.entries[i] == rest.entries[i - 1];
          assert RefAt(trades[0].price, trades[1..], i - 1) == RefAt(last, trades, i);
          assert trades[1..][i - 1] == trades[i];
        }
      }
    }
  }

  /** The whole backtest over an unsorted history. */
  function Run(history: seq<Trade>): (r: Replay)
    ensures r.halt == Some(EmptyHistory) <==> |history| == 0
    ensures |history| == 0 ==> r.entries == []
    ensures |history| > 0 ==> |r.entries| < |history|
    ensures |history| > 0 && r.halt.None? ==> |r.entries| == |history| - 1
  {
    var sorted := SortByDate(history);
    if |sorted| == 0 then Replay([], Some(EmptyHistory))
    else Fold(sorted[0].price, sorted[1..])
  }

  /**
   * Entry `i` of the backtest logs sorted trade `i + 1` and its decision
   * against sorted trade `i`, whose price is the reference in force.
   */
  lemma RunEntries(history: seq<Trade>)
    ensures forall i :: 0 <= i < |Run(history).entries| ==>
              && SortByDate(history)[i].price != 0.0
              && Run(history).entries[i] ==
                 Entry(SortByDate(history)[i + 1].date, SortByDate(history)[i + 1].price,
                       Decide(SortByDate(history)[i].price, SortByDate(history)[i + 1].price, Threshold))
  {
    var sorted := SortByDate(history);
    if |sorted| > 0 {
      var r := Run(history);
      FoldEntries(sorted[0].price, sorted[1..]);
      forall i | 0 <= i < |r.entries|
        ensures sorted[i].price != 0.0
        ensures r.entries[i] == Entry(sorted[i + 1].date, sorted[i + 1].price,
                                      Decide(sorted[i].price, sorted[i + 1].price, Threshold))
      {
        assert RefAt(sorted[0].price, sorted[1..], i) == sorted[i].price;
        assert sorted[1..][i] == sorted[i + 1];
      }
    }
  }

  /** With no zero price in the history, every trade after the first is logged. */
  lemma NonZeroPricesLogEveryTrade(history: seq<Trade>)
    requires |history| > 0
    requires forall i :: 0 <= i < |history| ==> history[i].price != 0.0
    ensures Run(history).halt.None?
    ensures |Run(history).entries| == |history| - 1
  {
    var sorted := SortByDate(history);
    SortByDateSortedStable(history);
    forall i | 0 <= i < |sorted|
      ensures sorted[i].price != 0.0
    {
      assert sorted[i] in multiset(history);
    }
    assert NoZeroReference(sorted[0].price, sorted[1..]);
    FoldHaltsOnZeroReference(sorted[0].price, sorted[1..]);
  }

  /** Replays `entries` ahead of the rest of the run. */
  function Prepend(entries: seq<Entry>, r: Replay): Replay
  {
    Replay(entries + r.entries, r.halt)
  }

  /** One turn of the loop: log the head trade against `last`, then continue from its price. */
  lemma FoldUnroll(entries: seq<Entry>, last: real, trades: seq<Trade>)
    requires |trades| > 0
    ensures last == 0.0 ==> Prepend(entries, Fold(last, trades)) == Replay(entries, Some(ZeroReference))
    ensures last != 0.0 ==>
              Prepend(entries, Fold(last, trades)) ==
              Prepend(entries + [Entry(trades[0].date, trades[0].price, Decide(last, trades[0].price, Threshold))],
                      Fold(trades[0].price, trades[1..]))
  {
    if last == 0.0 {
      assert entries + [] == entries;
    } else {
      var e := Entry(trades[0].date, trades[0].price, Decide(last, trades[0].price, Threshold));
      var tail := Fold(trades[0].price, trades[1..]);
      assert entries + ([e] + tail.entries) == (entries + [e]) + tail.entries;
    }
  }

  /** The loop of `backtest()`: a running `last_price` that moves forward after every trade. */
  method RunLoop(history: seq<Trade>) returns (r: Replay)
    ensures r == Run(history)
  {
    var sorted := SortByDate(history);
    if |sorted| == 0 {
      return Replay([], Some(EmptyHistory));
    }
    ghost var whole := Fold(sorted[0].price, sorted[1..]);
    assert whole == Run(history);
    var last := sorted[0].price;
    var entries: seq<Entry> := [];
    var i := 1;
    while i < |sorted|
      invariant 1 <= i <= |sorted|
      invariant last == sorted[i - 1].price
      invariant Prepend(entries, Fold(last, sorted[i..])) == whole
      decreases |sorted| - i
    {
      FoldUnroll(entries, last, sorted[i..]);
      if last == 0.0 {
        return Replay(entries, Some(ZeroReference));
      }
      var current := sorted[i].price;
      assert sorted[i..][1..] == sorted[i + 1..];
      entries := entries + [Entry(sorted[i].date, current, Decide(last, current, Threshold))];
      last := current;
      i := i + 1;
    }
    assert sorted[i..] == [];
    assert entries + [] == entries;
    return Replay(entries, None);
  }

  /** The history [(3, 10), (1, 8), (2, 9)] replays 8 -> 9 and 9 -> 10, both SELL against the 5% threshold. */
  lemma RunExample()
    ensures Run([Trade(3, 10.0), Trade(1, 8.0), Trade(2, 9.0)]) ==
            Replay([Entry(2, 9.0, Outcome(0.125, Sell)), Entry(3, 10.0, Outcome(1.0 / 9.0, Sell))], None)
  {
    var h := [Trade(3, 10.0), Trade(1, 8.0), Trade(2, 9.0)];
    var sorted := [Trade(1, 8.0), Trade(2, 9.0), Trade(3, 10.0)];
    SortExample();
    assert Run(h) == Fold(8.0, sorted[1..]);
    assert sorted[1..] == [Trade(2, 9.0), Trade(3, 10.0)];
    assert [Trade(2, 9.0), Trade(3, 10.0)][1..] == [Trade(3, 10.0)];
    assert [Trade(3, 10.0)][1..] == [];
    assert Fold(10.0, []) == Replay([], None);
    assert Decide(9.0, 10.0, Threshold) == Outcome(1.0 / 9.0, Sell);
    assert Fold(9.0, [Trade(3, 10.0)]) == Replay([Entry(3, 10.0, Outcome(1.0 / 9.0, Sell))], None);
    assert Decide(8.0, 9.0, Threshold) == Outcome(0.125, Sell);
  }
}
