/**
 * Order sizing: the balance lookup that turns a failed fetch into zero and
 * the SELL / BUY guards that either size an order or block it as dust.
 */
module Sizing {
  import opened Wrappers
  import opened Decision
  import opened Rounding

  const Trx: string := "trx"
  const Usdt: string := "usdt"

  /** Below this TRX balance a SELL submits nothing. */
  const MinTrx: real := 0.1
  /** Below this USDT balance a BUY submits nothing. */
  const MinUsdt: real := 0.01

  /** The exchange's balance reply; `None` is a failed fetch. */
  type Wallet = Option<map<string, real>>

  datatype Side = SellTrx | BuyTrx

  datatype Order = Order(side: Side, quantity: real, price: real)

  datatype BlockReason = InsufficientTrx(trx: real) | InsufficientUsdt(usdt: real) | NoAction

  datatype SizingResult = Submit(order: Order) | Blocked(reason: BlockReason)

  /** A failed fetch and a missing currency both read as a zero balance. */
  function BalanceOf(wallet: Wallet, currency: string): (b: real)
    ensures wallet.None? ==> b == 0.0
    ensures wallet.Some? && currency in wallet.value ==> b == wallet.value[currency]
    ensures wallet.Some? && currency !in wallet.value ==> b == 0.0
  {
    match wallet
    case None => 0.0
    case Some(m) => if currency in m then m[currency] else 0.0
  }

  /** SELL: the whole TRX balance, rounded to six places, at the current price. */
  function SizeSell(price: real, trx: real): (r: SizingResult)
    ensures r.Submit? <==> trx >= MinTrx
    ensures r.Blocked? ==> r.reason == InsufficientTrx(trx)
    ensures r.Submit? ==> && r.order.side == SellTrx
                          && r.order.price == price
                          && IsMicro(r.order.quantity)
                          && MinTrx <= r.order.quantity
                          && -0.5 <= (r.order.quantity - trx) * Scale <= 0.5
    ensures r.Submit? ==> r.order.quantity == Round6(trx)
  {
    if trx < MinTrx then Blocked(InsufficientTrx(trx))
    else
      assert IsMicro(MinTrx);
      Round6KeepsMicroLowerBound(trx, MinTrx);
      Submit(Order(SellTrx, Round6(trx), price))
  }

  /**
   * BUY: as much TRX as the whole USDT balance pays for at the current price,
   * rounded to six places. The division needs a non-zero price once the
   * balance passes the guard.
   */
  function SizeBuy(price: real, usdt: real): (r: SizingResult)
    requires usdt >= MinUsdt ==> price != 0.0
    ensures r.Submit? <==> usdt >= MinUsdt
    ensures r.Blocked? ==> r.reason == InsufficientUsdt(usdt)
    ensures r.Submit? ==> && r.order.side == BuyTrx
                          && r.order.price == price
                          && IsMicro(r.order.quantity)
                          && -0.5 <= (r.order.quantity - usdt / price) * Scale <= 0.5
    ensures r.Submit? ==> r.order.quantity == Round6(usdt / price)
    ensures r.Submit? && price > 0.0 ==> r.order.quantity >= 0.0
  {
    if usdt < MinUsdt then Blocked(InsufficientUsdt(usdt))
    else
      var exact := usdt / price;
      var qty := Round6(exact);
      assert price > 0.0 ==> qty >= 0.0 by {
        if price > 0.0 {
          assert exact >= 0.0;
          Round6KeepsMicroLowerBound(exact, 0.0);
        }
      }
      Submit(Order(BuyTrx, qty, price))
  }

  /**
   * The sizing step of one live cycle. HOLD never reads a balance; SELL and
   * BUY read the TRX and USDT balance respectively.
   */
  function Size(signal: Signal, price: real, wallet: Wallet): (r: SizingResult)
    requires signal == Buy && BalanceOf(wallet, Usdt) >= MinUsdt ==> price != 0.0
    ensures signal == Hold ==> r == Blocked(NoAction)
    ensures signal == Sell ==> r == SizeSell(price, BalanceOf(wallet, Trx))
    ensures signal == Buy ==> r == SizeBuy(price, BalanceOf(wallet, Usdt))
    ensures wallet.None? ==> r.Blocked?
    ensures r.Submit? ==> (r.order.side == SellTrx <==> signal == Sell)
  {
    match signal
    case Hold => Blocked(NoAction)
    case Sell => SizeSell(price, BalanceOf(wallet, Trx))
    case Buy => SizeBuy(price, BalanceOf(wallet, Usdt))
  }

  /** Dust balances never produce an order, for any price. */
  lemma DustNeverTrades(price: real, wallet: Wallet)
    ensures BalanceOf(wallet, Trx) < MinTrx ==> Size(Sell, price, wallet).Blocked?
    ensures BalanceOf(wallet, Usdt) < MinUsdt ==> Size(Buy, price, wallet).Blocked?
  {
  }

  /** A 0.05 TRX balance blocks a SELL. */
  lemma SellDustExample(price: real)
    ensures Size(Sell, price, Some(map[Trx := 0.05])) == Blocked(InsufficientTrx(0.05))
  {
  }

  /** An exact tie at six places rounds to the even millionth: 0.1015625 TRX sells 0.101562. */
  lemma SellTieRoundsToEven()
    ensures SizeSell(1.0, 0.1015625).Submit?
    ensures SizeSell(1.0, 0.1015625).order.quantity == 0.101562
  {
    assert 0.1015625 * Scale == 101562.5;
    assert (101562.5).Floor == 101562;
  }

  /** Rounding to nearest can ask to sell more TRX than the account holds. */
  lemma SellCanExceedBalance()
    ensures SizeSell(1.0, 0.9999999).Submit?
    ensures SizeSell(1.0, 0.9999999).order.quantity > 0.9999999
  {
    Round6CanExceedInput();
  }
}
