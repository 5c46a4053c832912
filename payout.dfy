/** How a settled contract's outcome and money are decided, shared by both
    settlement drivers: the price rule used when no session control is
    queued, the 1% fee on profit, and the amount credited back to the wallet.
    The two drivers differ only in what a WIN returns of the stake. */
module Payout {
  import opened Common
  import opened Store

  /** The global sweep (`/api/contract/settle`) or the per-user sweep
      (`/api/contract/settle-user`). */
  datatype Driver = GlobalSweep | UserSweep

  /** Outcome from prices: BUY_UP wins on a strict rise, BUY_DOWN on a strict
      fall; an unchanged price loses for both sides. */
  function PriceOutcome(side: Side, entry: real, exit: real): (o: Outcome)
    ensures exit == entry ==> o == Loss
    ensures exit != entry ==> (o == Win <==> ((exit > entry) <==> side == BuyUp))
  {
    if side == BuyUp then (if exit > entry then Win else Loss)
    else (if exit < entry then Win else Loss)
  }

  /** Exactly one side wins whenever the price moved. */
  lemma OneSideWinsUnlessTie(entry: real, exit: real)
    ensures exit != entry <==> (PriceOutcome(BuyUp, entry, exit) == Win) != (PriceOutcome(BuyDown, entry, exit) == Win)
  {
  }

  /** The stored profitability, where a null one counts as 0. */
  function Rate(profitability: Option<real>): real {
    if profitability.Some? then profitability.value else 0.0
  }

  datatype Settlement = Settlement(profitBeforeFee: real, fee: real, netProfit: real, actualProfit: real, credit: real)

  /** What part of the stake the wallet gets back besides `actualProfit`. */
  function StakeReturned(driver: Driver, amount: real, outcome: Outcome): real {
    if driver == GlobalSweep && outcome == Win then amount / 2.0 else amount
  }

  /** Profit, fee and wallet credit of one settled position. */
  function Settle(driver: Driver, amount: real, profitability: Option<real>, outcome: Outcome): (s: Settlement)
    ensures s.profitBeforeFee == amount * Rate(profitability) / 100.0
    ensures s.fee * 100.0 == s.profitBeforeFee
    ensures outcome == Win ==> s.actualProfit == amount * Rate(profitability) * 99.0 / 10000.0
    ensures outcome == Loss ==> s.actualProfit == -(amount * Rate(profitability) * 101.0 / 10000.0)
    ensures s.credit == StakeReturned(driver, amount, outcome) + s.actualProfit
  {
    var profitBeforeFee := amount * (Rate(profitability) / 100.0);
    var fee := profitBeforeFee * 0.01;
    var netProfit := profitBeforeFee - fee;
    var actualProfit := if outcome == Win then netProfit else -(profitBeforeFee + fee);
    var credit :=
      if outcome == Win then
        StakeReturned(driver, amount, outcome) + netProfit
      else
        amount - profitBeforeFee - fee;
    Settlement(profitBeforeFee, fee, netProfit, actualProfit, credit)
  }

  /** The recorded profit does not depend on the driver. */
  lemma ProfitIndependentOfDriver(amount: real, profitability: Option<real>, outcome: Outcome)
    ensures Settle(GlobalSweep, amount, profitability, outcome).actualProfit
         == Settle(UserSweep, amount, profitability, outcome).actualProfit
  {
  }

  /** Under the per-user driver the stake debited at open plus the credit at
      settlement changes `available` by exactly the recorded profit. */
  lemma UserSweepNetsActualProfit(wallets: map<nat, Wallet>, user: nat, amount: real, profitability: Option<real>, outcome: Outcome)
    ensures var s := Settle(UserSweep, amount, profitability, outcome);
            Available(Credit(Credit(wallets, user, -amount), user, s.credit), user)
              == Available(wallets, user) + s.actualProfit
  {
  }

  /** Under the global driver a WIN returns less than a LOSS exactly when the
      profitability is below 25%. */
  lemma {:induction false} GlobalWinBelowLossIff(amount: real, rate: real)
    requires amount > 0.0
    ensures Settle(GlobalSweep, amount, Some(rate), Win).credit < Settle(GlobalSweep, amount, Some(rate), Loss).credit
        <==> rate < 25.0
  {
    var win := Settle(GlobalSweep, amount, Some(rate), Win).credit;
    var loss := Settle(GlobalSweep, amount, Some(rate), Loss).credit;
    assert loss - win == amount * (25.0 - rate) / 50.0;
    PositiveFactor(amount, 25.0 - rate);
  }

  lemma PositiveFactor(a: real, b: real)
    requires a > 0.0
    ensures a * b > 0.0 <==> b > 0.0
  {
    if b > 0.0 {
      assert a * b > 0.0;
    } else {
      assert a * (-b) >= 0.0;
    }
  }

  /** A LOSS credit is never negative while the profitability is at most
      100/1.01 %, so the wallet cannot be driven below zero by settlement. */
  lemma {:induction false} LossCreditNonNegative(driver: Driver, amount: real, rate: real)
    requires amount >= 0.0 && 0.0 <= rate && rate * 101.0 <= 10000.0
    ensures Settle(driver, amount, Some(rate), Loss).credit >= 0.0
  {
    var s := Settle(driver, amount, Some(rate), Loss);
    assert s.credit == amount * (10000.0 - rate * 101.0) / 10000.0;
    assert amount * (10000.0 - rate * 101.0) >= 0.0;
  }

  /** At 100% profitability a LOSS takes back more than the stake. */
  lemma LossCreditNegativeAtFullRate()
    ensures Settle(UserSweep, 100.0, Some(100.0), Loss).credit == -1.0
  {
  }

  /** The worked examples: stake 100 at 20%. */
  lemma WorkedExamples()
    ensures Settle(UserSweep, 100.0, Some(20.0), Win) == Settlement(20.0, 0.2, 19.8, 19.8, 119.8)
    ensures Settle(UserSweep, 100.0, Some(20.0), Loss) == Settlement(20.0, 0.2, 19.8, -20.2, 79.8)
    ensures Settle(GlobalSweep, 100.0, Some(20.0), Win).credit == 69.8
    ensures PriceOutcome(BuyUp, 50000.0, 50100.0) == Win && PriceOutcome(BuyUp, 50000.0, 49900.0) == Loss
  {
  }
}
