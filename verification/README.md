# troncycle decision logic in Dafny

A model of the price-change trading bot `troncycle.py`. It watches the price
of the TRX-USDT pair and compares each new price with a reference price. A
move of at least 5% up sells the whole TRX balance. A move of at least 5% down
spends the whole USDT balance on TRX. Anything in between holds. The same
decision runs in two modes:

- live mode polls the ticker and submits orders;
- backtest mode replays the exchange's trade history, sorted by date, and only
  logs what it would have done.

The model is written as pure functions over `real` prices and immutable
datatypes, one module per component:

- `Wrappers` (`wrappers.dfy`): `Option`, the failed-or-fetched value.
- `Decision` (`decision.dfy`): the relative change `(current - last) / last`
  and its SELL / BUY / HOLD classification against the threshold. Both trade
  boundaries are inclusive.
- `Rounding` (`rounding.dfy`): `round(x, 6)` as rounding to the nearest
  millionth, with exact halves going to the even neighbour.
- `Sizing` (`sizing.dfy`): the balance lookup that reads a failed fetch as
  zero, and the SELL / BUY dust guards (0.1 TRX, 0.01 USDT) and order sizes.
- `HistorySort` (`history_sort.dfy`): the stable sort of the history by date,
  as an insertion sort.
- `Backtest` (`backtest.dfy`): the replay fold, plus a loop version that
  mirrors the `for` loop of `backtest()` and is proved to compute the same replay.
- `Live` (`live.dfy`): the live loop as a state machine. A start transition
  handles the initial fetch, and one step function handles each polling cycle.
- `Consistency` (`consistency.dfy`): both modes take the same decision for the
  same pair of prices.

`troncycle.py` never guards a zero divisor. The model does not add a guard
either: it records what the code then does.

- `Decide` requires a non-zero reference price, because Python's `/` demands
  one.
- In live mode, a zero reference price raises `ZeroDivisionError`, which is
  not caught. The model moves to `Stopped(ZeroDivision)`.
- A BUY at price 0 with at least 0.01 USDT also raises in `buy_trx`, and is
  modelled the same way.
- In backtest mode, an empty history raises on `history[0]`, and a zero
  reference price raises on the division. Both end the replay with a `Halt`
  reason. The entries logged before that point are kept.

One consequence of the code as written is proved in the model. Rounding to
nearest can round a balance up. Then the SELL quantity exceeds the TRX that
is held: `SellCanExceedBalance` shows this for a balance of 0.9999999. The
model keeps this behaviour.

## Model

| member | source | states |
|---|---|---|
| Decision.Classify | troncycle.py:70-75 | SELL exactly when the change reaches the threshold; BUY exactly when it is below the threshold and at or below its negation; HOLD exactly when it lies strictly between -threshold and threshold |
| Decision.BoundaryIsInclusive | troncycle.py:70-73 | a change equal to +threshold is SELL and one equal to -threshold is BUY, never HOLD |
| Decision.ClassifyMonotone | troncycle.py:70-75 | a larger change never gives a lower signal in the order BUY < HOLD < SELL |
| Decision.Decide | troncycle.py:69-75 | the signal of the decision is the three-way classification of its change against the threshold |
| Decision.DecideChange | troncycle.py:69 | the change is relative to the reference: current = last + change * last, and the change is zero exactly when the price did not move |
| Decision.DecideInPriceTerms | troncycle.py:69-75 | for a positive reference, SELL iff current >= last * (1 + threshold), BUY iff current <= last * (1 - threshold), HOLD iff strictly between |
| Decision.DecideExamples | troncycle.py:89-96 | 100 to 105 is SELL at +5%, 100 to 94 is BUY at -6%, 100 to 102 is HOLD at +2%, 100 to 95 is BUY at exactly -5% |
| Rounding.RoundHalfEven | troncycle.py:49 | the whole number chosen is within one half of its input, is the floor or the floor plus one, leaves whole inputs unchanged, and is even on an exact half |
| Rounding.Round6 | troncycle.py:49 | the result has six decimal places, lies within half a millionth of the input, leaves six-decimal inputs unchanged, and on an exact tie is the even millionth |
| Rounding.Round6Monotone | troncycle.py:56 | rounding preserves the order of quantities |
| Rounding.Round6Idempotent | troncycle.py:56 | rounding twice is rounding once |
| Rounding.Round6CanExceedInput | troncycle.py:49 | rounding to nearest can move a quantity above its input (0.9999999 becomes 1) |
| Sizing.BalanceOf | troncycle.py:36-42 | a failed balance fetch and a currency missing from the reply both read as 0.0; otherwise the reply's amount |
| Sizing.SizeSell | troncycle.py:43-49 | an order is submitted iff the TRX balance is at least 0.1; it sells at the given price a six-decimal quantity that is at least 0.1 and within half a millionth of the balance, namely the balance rounded to six places (ties to even); otherwise it is blocked with that balance |
| Sizing.SizeBuy | troncycle.py:51-58 | an order is submitted iff the USDT balance is at least 0.01; it buys at the given price a six-decimal quantity within half a millionth of usdt / price, namely usdt / price rounded to six places (ties to even), non-negative for a positive price; otherwise it is blocked with that balance |
| Sizing.Size | troncycle.py:91-96 | HOLD never orders; SELL sizes against the TRX balance and BUY against the USDT balance; a failed balance fetch always blocks; a submitted order's side matches the signal |
| Sizing.DustNeverTrades | troncycle.py:45-47 | for any price, a TRX balance below 0.1 blocks SELL and a USDT balance below 0.01 blocks BUY |
| Sizing.SellDustExample | troncycle.py:44-47 | a balance of 0.05 TRX blocks a SELL as insufficient |
| Sizing.SellTieRoundsToEven | troncycle.py:49 | a balance of 0.1015625 TRX, an exact tie at six places, sells 0.101562, the even millionth |
| Sizing.SellCanExceedBalance | troncycle.py:49 | with 0.9999999 TRX held, the SELL order asks for 1 TRX, more than the balance |
| HistorySort.Insert | troncycle.py:64 | inserting a trade gives a permutation of the trade plus the sequence, headed by the trade or by the old head |
| HistorySort.SortByDate | troncycle.py:64 | the sorted history has the input's length |
| HistorySort.SortByDateSortedStable | troncycle.py:64 | the sorted history is a permutation of the input, ascending by date, and for every date its trades appear in their input order |
| HistorySort.SortExample | troncycle.py:64 | the history with dates 3, 1, 2 sorts to dates 1, 2, 3 |
| Backtest.Fold | troncycle.py:66-76 | the replay logs at most one entry per trade, and exactly one per trade when it does not halt; the only halt it models is a zero reference |
| Backtest.FoldHaltsOnZeroReference | troncycle.py:66-69 | the replay halts exactly when some trade meets a zero reference price, and it halts at the first such trade |
| Backtest.FoldEntries | troncycle.py:66-76 | the i-th entry logs trade i and its decision against reference i: the seed, then the previous trade's price |
| Backtest.FoldUnroll | troncycle.py:66-76 | one loop turn: a zero reference halts with the entries so far; otherwise the head trade is logged and the rest is replayed from its price |
| Backtest.Run | troncycle.py:62-76 | an empty history halts at once with no entries; a non-empty one logs fewer entries than it has trades, and exactly n - 1 when it does not halt |
| Backtest.RunEntries | troncycle.py:64-76 | entry i logs sorted trade i + 1 and its decision against sorted trade i, whose price is non-zero |
| Backtest.NonZeroPricesLogEveryTrade | troncycle.py:65-69 | a non-empty history with no zero price never halts and logs n - 1 entries |
| Backtest.RunLoop | troncycle.py:60-76 | the loop with a running last_price, moved forward after every trade, computes the same replay as the fold |
| Backtest.RunExample | troncycle.py:62-75 | the history (3, 10), (1, 8), (2, 9) logs 8 to 9 as SELL at 12.5% and 9 to 10 as SELL at 1/9 |
| Live.Start | troncycle.py:79-83 | a failed initial fetch stops the run; a fetched price becomes the reference |
| Live.Step | troncycle.py:84-97 | a stopped run stays stopped; a failed fetch skips the cycle and keeps the state; a zero reference, or a BUY at price 0 that passes the balance guard, crashes; otherwise the cycle decides against the reference, sizes the order and moves the reference to the fetched price |
| Live.RunCycles | troncycle.py:84-97 | repeated cycles of the `while True` loop: a stopped run stays stopped, and a run that ends running was running from the start |
| Live.InitialFailureIsFinal | troncycle.py:79-82 | after a failed initial fetch, no cycle changes anything |
| Live.ReferenceIsLatestPrice | troncycle.py:86-97 | with positive prices the loop never stops, and after any cycles the reference is the latest successfully fetched price |
| Live.FailedFetchesKeepState | troncycle.py:86-88 | any number of failed fetches leaves the state unchanged |
| Live.BuyExample | troncycle.py:89-97 | from 100, a fetch of 94 with 5 USDT is BUY at -6% and orders round6(5/94) TRX at 94, and the reference becomes 94 |
| Consistency.BacktestAgreesWithLive | troncycle.py:69-97 | a live cycle on sorted trades i and i + 1 takes the backtest's i-th decision and moves the reference to the same price; it can only diverge by crashing on a BUY at price 0 |
| Consistency.SameSignalBothModes | troncycle.py:66-97 | a sorted two-trade history logs exactly one entry, the decision of the second price against the first; a live cycle from the first price that does not crash acts on that same decision and moves the reference to the entry's price |

## Left out

- The exchange client (`ticker`, `get_balance`, `buy`, `sell`, `history`) is foreign network code. A fetch is an input: an `Option` price, an `Option` balance map, or a trade sequence. A submitted order is an output value.
- An exception raised by `client.buy` or `client.sell` is not caught by the bot and would end the process. The model treats submission as always returning, because the client's failure modes are outside this code.
- Parsing of the ticker and balance replies (`float(...)`, `int(x['date'])`) is not modelled. A failed price parse already reads as a failed fetch. A balance amount whose `float(...)` fails raises inside the `try` of `get_balance` and reads as 0.0, which is what a `None` wallet gives in `Sizing.BalanceOf`. Trades arrive as already-parsed dates and prices.
- Credential loading, configuration globals, logging setup and message formatting have no decision semantics.
- Backtest.Fold: the `datetime.utcfromtimestamp` rendering of each trade's date runs before the division and raises for a timestamp outside years 1 to 9999, which ends the backtest. `Halt` has no reason for this: every timestamp is taken to render, so the model never halts on a date.
- `time.sleep(60)` and the unbounded `while True` are not modelled. A run is a finite sequence of cycles (`Live.RunCycles`).
- The command-line dispatch between backtest and live mode is not modelled.
- `balances.py` only prints balances and makes no decisions.
- Rounding.Round6: Python floats are replaced by exact reals. `round` is modelled as exact round-half-to-even at six places. Binary representation error, which can decide a tie differently in Python, is not modelled.
- Decision.Decide: its contract only links the signal to the change. The arithmetic of the change is stated by `DecideChange` and `DecideInPriceTerms`. The change and the threshold comparisons are exact real arithmetic. With Python floats a move that is exactly 5% on paper can compute just below 0.05, for example `(0.105 - 0.1) / 0.1`, and then classifies as HOLD where the model gives SELL.
- Live.ReferenceIsLatestPrice: stated for positive prices only. With a zero price the run may stop, and `Live.Step` states exactly when.
