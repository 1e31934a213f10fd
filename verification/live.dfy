/**
 * The live trading loop as a state machine: a start transition from the
 * initial price fetch and one step per polling cycle. The 60-second sleep
 * and the unbounded `while True` are outside the model; a run is a finite
 * sequence of cycles.
 */
module Live {
  import opened Wrappers
  import opened Decision
  import opened Sizing

  /** What one cycle observes: the ticker fetch and the balance reply sizing would read. */
  datatype Observation = Observation(price: Option<real>, wallet: Wallet)

  /**
   * The run ends when the initial fetch fails (the function returns) or when
   * a division by zero raises an uncaught `ZeroDivisionError`.
   */
  datatype StopReason = InitialFetchFailed | ZeroDivision

  datatype LiveState = Running(reference: real) | Stopped(reason: StopReason)

  /** What a cycle did: nothing (already stopped), skipped a failed fetch, decided, or crashed. */
  datatype Event = Idle | Skipped | Acted(decision: Outcome, sizing: SizingResult) | Crashed

  datatype Cycle = Cycle(state: LiveState, event: Event)

  /** The first fetch: its failure is fatal, its price seeds the reference. */
  function Start(initial: Option<real>): (s: LiveState)
    ensures s.Stopped? <==> initial.None?
    ensures s.Stopped? ==> s.reason == InitialFetchFailed
    ensures s.Running? ==> s.reference == initial.value
  {
    match initial
    case None => Stopped(InitialFetchFailed)
    case Some(p) => Running(p)
  }

  /** `buy_trx` passes its guard and then divides the USDT balance by a zero price. */
  predicate BuyDividesByZero(signal: Signal, price: real, wallet: Wallet)
  {
    signal == Buy && price == 0.0 && BalanceOf(wallet, Usdt) >= MinUsdt
  }

  /** One polling cycle from state `s`. */
  function Step(s: LiveState, obs: Observation): (c: Cycle)
    ensures s.Stopped? ==> c == Cycle(s, Idle)
    ensures s.Running? && obs.price.None? ==> c == Cycle(s, Skipped)
    ensures c.state.Running? ==>
              && s.Running?
              && c.state.reference == obs.price.GetOr(s.reference)
    ensures c.event.Acted? ==>
              && s.Running? && s.reference != 0.0 && obs.price.Some?
              && c.event.decision == Decide(s.reference, obs.price.value, Threshold)
              && !BuyDividesByZero(c.event.decision.signal, obs.price.value, obs.wallet)
              && c.event.sizing == Size(c.event.decision.signal, obs.price.value, obs.wallet)
    ensures c.event == Crashed <==>
              && s.Running? && obs.price.Some?
              && (s.reference == 0.0 ||
                  BuyDividesByZero(Decide(s.reference, obs.price.value, Threshold).signal,
                                   obs.price.value, obs.wallet))
    ensures c.event == Crashed ==> c.state == Stopped(ZeroDivision)
    ensures s.Running? && obs.price.Some? && c.event != Crashed ==>
              c.event.Acted? && c.state == Running(obs.price.value)
  {
    match s
    case Stopped(_) => Cycle(s, Idle)
    case Running(last) =>
      match obs.price
      case None => Cycle(s, Skipped)
      case Some(current) =>
        if last == 0.0 then Cycle(Stopped(ZeroDivision), Crashed)
        else
          var d := Decide(last, current, Threshold);
          if BuyDividesByZero(d.signal, current, obs.wallet) then Cycle(Stopped(ZeroDivision), Crashed)
          else Cycle(Running(current), Acted(d, Size(d.signal, current, obs.wallet)))
  }

  /** The state after running the cycles `obs` in order. */
  function RunCycles(s: LiveState, obs: seq<Observation>): (r: LiveState)
    ensures s.Stopped? ==> r == s
    ensures r.Running? ==> s.Running?
    decreases |obs|
  {
    if |obs| == 0 then s else RunCycles(Step(s, obs[0]).state, obs[1..])
  }

  /** The price of the latest successful fetch in `obs`, or `reference` if none succeeded. */
  function LatestPrice(reference: real, obs: seq<Observation>): real
    decreases |obs|
  {
    if |obs| == 0 then reference
    else LatestPrice(obs[0].price.GetOr(reference), obs[1..])
  }

  /** Every fetched price in `obs` is positive. */
  ghost predicate PositivePrices(obs: seq<Observation>)
  {
    forall i :: 0 <= i < |obs| && obs[i].price.Some? ==> obs[i].price.value > 0.0
  }

  /** A failed initial fetch ends the run: no cycle ever runs. */
  lemma InitialFailureIsFinal(obs: seq<Observation>)
    ensures RunCycles(Start(None), obs) == Stopped(InitialFetchFailed)
  {
  }

  /**
   * With positive prices the loop never stops, and after any number of cycles
   * the reference price is the latest successfully fetched price: failed
   * fetches leave it alone, every processed price replaces it.
   */
  lemma {:induction false} ReferenceIsLatestPrice(reference: real, obs: seq<Observation>)
    requires reference > 0.0
    requires PositivePrices(obs)
    ensures RunCycles(Running(reference), obs) == Running(LatestPrice(reference, obs))
    decreases |obs|
  {
    if |obs| > 0 {
      var next := obs[0].price.GetOr(reference);
      assert Step(Running(reference), obs[0]).state == Running(next);
      assert PositivePrices(obs[1..]) by {
        forall i | 0 <= i < |obs[1..]| && obs[1..][i].price.Some?
          ensures obs[1..][i].price.value > 0.0
        {
          assert obs[1..][i] == obs[i + 1];
        }
      }
      ReferenceIsLatestPrice(next, obs[1..]);
    }
  }

  /** A run of failed fetches changes nothing, however long. */
  lemma {:induction false} FailedFetchesKeepState(s: LiveState, obs: seq<Observation>)
    requires forall i :: 0 <= i < |obs| ==> obs[i].price.None?
    ensures RunCycles(s, obs) == s
    decreases |obs|
  {
    if |obs| > 0 {
      assert Step(s, obs[0]).state == s;
      FailedFetchesKeepState(s, obs[1..]);
    }
  }

  /** Worked example: from 100, a 94 fetch with 5 USDT buys 5/94 TRX rounded to six places. */
  lemma BuyExample()
    ensures Step(Running(100.0), Observation(Some(94.0), Some(map[Usdt := 5.0]))) ==
            Cycle(Running(94.0), Acted(Outcome(-0.06, Buy), Submit(Order(BuyTrx, Rounding.Round6(5.0 / 94.0), 94.0))))
  {
    assert Decide(100.0, 94.0, Threshold) == Outcome(-0.06, Buy);
  }
}
