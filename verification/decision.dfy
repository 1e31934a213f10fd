/**
 * The decision engine shared by the backtest and the live loop: the relative
 * price change against the reference price and its three-way classification
 * against a fixed threshold.
 */
module Decision {

  /** The configured `THRESHOLD`: a 5% move. */
  const Threshold: real := 0.05

  datatype Signal = Sell | Buy | Hold

  /** The decision on one observation: its relative change and its signal. */
  datatype Outcome = Outcome(change: real, signal: Signal)

  /** Buy < Hold < Sell: the order in which signals follow the price change. */
  function Rank(s: Signal): nat
  {
    match s
    case Buy => 0
    case Hold => 1
    case Sell => 2
  }

  /**
   * The if / elif / else chain: SELL is checked first and both trade
   * boundaries are inclusive.
   */
  function Classify(change: real, threshold: real): (s: Signal)
    ensures s == Sell <==> threshold <= change
    ensures s == Buy <==> change < threshold && change <= -threshold
    ensures s == Hold <==> -threshold < change < threshold
  {
    if change >= threshold then Sell
    else if change <= -threshold then Buy
    else Hold
  }

  /** A change exactly at the threshold trades; it is never a HOLD. */
  lemma BoundaryIsInclusive(threshold: real)
    requires threshold > 0.0
    ensures Classify(threshold, threshold) == Sell
    ensures Classify(-threshold, threshold) == Buy
  {
  }

  /** A larger change never yields a lower-ranked signal. */
  lemma ClassifyMonotone(c1: real, c2: real, threshold: real)
    requires c1 <= c2
    ensures Rank(Classify(c1, threshold)) <= Rank(Classify(c2, threshold))
  {
  }

  lemma MulPositivePreservesOrder(a: real, b: real, k: real)
    requires k > 0.0
    ensures a <= b <==> a * k <= b * k
  {
    if a <= b {
      assert (b - a) * k >= 0.0;
    } else {
      assert (a - b) * k > 0.0;
    }
  }

  /**
   * The decision for one observation `current` against the reference price
   * `last`. Python's `/` raises on a zero divisor, hence the precondition.
   */
  function Decide(last: real, current: real, threshold: real): (d: Outcome)
    requires last != 0.0
    ensures d.signal == Classify(d.change, threshold)
  {
    var change := (current - last) / last;
    Outcome(change, Classify(change, threshold))
  }

  /** The change is relative to the reference price: `current = last * (1 + change)`. */
  lemma DecideChange(last: real, current: real, threshold: real)
    requires last != 0.0
    ensures Decide(last, current, threshold).change * last + last == current
    ensures Decide(last, current, threshold).change == 0.0 <==> current == last
  {
  }

  /**
   * For a positive reference price the signal depends only on where the new
   * price falls relative to `last * (1 + threshold)` and `last * (1 - threshold)`.
   */
  lemma DecideInPriceTerms(last: real, current: real, threshold: real)
    requires last > 0.0
    ensures Decide(last, current, threshold).signal == Sell <==> current >= last + threshold * last
    ensures threshold > 0.0 ==>
              (Decide(last, current, threshold).signal == Buy <==> current <= last - threshold * last)
    ensures threshold > 0.0 ==>
              (Decide(last, current, threshold).signal == Hold <==>
                 last - threshold * last < current < last + threshold * last)
  {
    var change := Decide(last, current, threshold).change;
    DecideChange(last, current, threshold);
    MulPositivePreservesOrder(threshold, change, last);
    MulPositivePreservesOrder(change, -threshold, last);
  }

  /** Worked examples of the 5% rule around a reference price of 100. */
  lemma DecideExamples()
    ensures Decide(100.0, 105.0, Threshold) == Outcome(0.05, Sell)
    ensures Decide(100.0, 94.0, Threshold) == Outcome(-0.06, Buy)
    ensures Decide(100.0, 102.0, Threshold) == Outcome(0.02, Hold)
    ensures Decide(100.0, 95.0, Threshold) == Outcome(-0.05, Buy)
  {
  }
}
