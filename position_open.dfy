/** POST /api/contract/position: opens a binary contract for the signed-in
    user. The request is validated, a user with an OPEN position is refused,
    and one transaction debits the stake from the wallet and inserts the
    position; an insufficient balance rolls the transaction back. */
module PositionApi {
  import opened Common
  import opened Store
  import opened Payout
  import opened Settlement

  /** The JSON body; a field the client left out is None. */
  datatype OpenRequest = OpenRequest(
    symbol: Option<string>,
    side: Option<string>,
    amount: Option<real>,
    duration: Option<int>,
    currentPrice: Option<real>,
    profitability: Option<real>)

  datatype OpenReply =
    | MissingFields             // 400: a field is absent, empty or zero
    | BadSide                   // 400: side must be BUY_UP or BUY_DOWN
    | NonPositiveAmount         // 400: amount must be greater than 0
    | AlreadyOpen               // 400: the user already has an OPEN position
    | InsufficientBalance       // 400: available is below amount
    | Opened(position: Position)

  function SideOf(side: string): Option<Side> {
    if side == "BUY_UP" then Some(BuyUp)
    else if side == "BUY_DOWN" then Some(BuyDown)
    else None
  }

  /** The checks made before the database is read, in the handler's order. */
  function Validate(req: OpenRequest): (r: Option<OpenReply>)
    ensures r.None? <==>
              && !FalsyString(req.symbol) && !FalsyNumber(req.amount) && !FalsyInt(req.duration)
              && !FalsyNumber(req.currentPrice) && !FalsyNumber(req.profitability)
              && req.side.Some? && SideOf(req.side.value).Some? && req.amount.value > 0.0
    ensures r.Some? ==> r.value in {MissingFields, BadSide, NonPositiveAmount}
  {
    if FalsyString(req.symbol) || FalsyString(req.side) || FalsyNumber(req.amount) || FalsyInt(req.duration)
       || FalsyNumber(req.currentPrice) || FalsyNumber(req.profitability)
    then Some(MissingFields)
    else if SideOf(req.side.value).None? then Some(BadSide)
    else if req.amount.value <= 0.0 then Some(NonPositiveAmount)
    else None
  }

  /** The row inserted for a validated request. */
  function NewPosition(id: nat, userId: nat, req: OpenRequest, now: int): Position
    requires Validate(req).None?
  {
    var amount, rate := req.amount.value, req.profitability.value;
    var expectedProfit := amount * rate / 100.0;
    Position(id, userId, req.symbol.value, SideOf(req.side.value).value, req.currentPrice.value, amount,
             req.duration.value, Some(rate), expectedProfit, amount + expectedProfit,
             Open, now + req.duration.value * 1000, now, None, None, None, None)
  }

  /** What the handler leaves in the tables and answers. */
  function OpenPosition(db: Ledger, userId: nat, req: OpenRequest, now: int): (r: (Ledger, OpenReply))
    ensures !r.1.Opened? ==> r.0 == db
    ensures r.1.Opened? ==> Validate(req).None? && !HasOpen(db.positions, userId)
  {
    match Validate(req)
    case Some(error) => (db, error)
    case None =>
      if HasOpen(db.positions, userId) then (db, AlreadyOpen)
      else
        var amount := req.amount.value;
        var wallet := WalletOrNew(db.wallets, userId);
        if wallet.available < amount then (db, InsufficientBalance)
        else
          var position := NewPosition(|db.positions|, userId, req, now);
          (db.(wallets := db.wallets[userId := wallet.(available := wallet.available - amount)],
               positions := db.positions + [position]),
           Opened(position))
  }

  method OpenContract(db: Database, userId: nat, req: OpenRequest, now: int) returns (reply: OpenReply)
    requires db.Valid()
    modifies db
    ensures db.Valid()
    ensures (db.Contract(), reply) == OpenPosition(old(db.Contract()), userId, req, now)
    ensures db.users == old(db.users) && db.codes == old(db.codes)
  {
    var invalid := Validate(req);
    if invalid.Some? {
      return invalid.value;
    }
    var existing := FindOpen(db.positions, userId);
    if existing.Some? {
      return AlreadyOpen;
    }
    var amount := req.amount.value;
    var wallet := WalletOrNew(db.wallets, userId);
    if wallet.available < amount {
      return InsufficientBalance;
    }
    db.wallets := db.wallets[userId := wallet.(available := wallet.available - amount)];
    var position := NewPosition(|db.positions|, userId, req, now);
    db.positions := db.positions + [position];
    reply := Opened(position);
  }

  /** `findFirst` for an OPEN position of the user, scanning the table. */
  method FindOpen(positions: seq<Position>, userId: nat) returns (found: Option<nat>)
    ensures found.Some? ==> found.value < |positions| && positions[found.value].userId == userId
                            && positions[found.value].status == Open
    ensures found.None? <==> !HasOpen(positions, userId)
  {
    for i := 0 to |positions|
      invariant forall k :: 0 <= k < i ==> !(positions[k].userId == userId && positions[k].status == Open)
    {
      if positions[i].userId == userId && positions[i].status == Open {
        return Some(i);
      }
    }
    return None;
  }

  /** Opening keeps the one-open-position-per-user rule. */
  lemma OpenKeepsOneOpen(db: Ledger, userId: nat, req: OpenRequest, now: int)
    requires AtMostOneOpen(db.positions)
    ensures AtMostOneOpen(OpenPosition(db, userId, req, now).0.positions)
  {
    var (after, reply) := OpenPosition(db, userId, req, now);
    if reply.Opened? {
      var n := |db.positions|;
      forall i, j | 0 <= i < j < |after.positions| && after.positions[i].status == Open && after.positions[j].status == Open
        ensures after.positions[i].userId != after.positions[j].userId
      {
        if j == n {
          assert after.positions[i] == db.positions[i];
        }
      }
    }
  }

  /** An opened position debits exactly the stake from the caller's wallet,
      which had at least that much; nobody else's wallet changes. */
  lemma OpenDebitsStake(db: Ledger, userId: nat, req: OpenRequest, now: int, u: nat)
    ensures var (after, reply) := OpenPosition(db, userId, req, now);
            && (reply.Opened? && u == userId ==>
                  && Available(db.wallets, u) >= reply.position.amount > 0.0
                  && Available(after.wallets, u) == Available(db.wallets, u) - reply.position.amount)
            && (u != userId ==> Available(after.wallets, u) == Available(db.wallets, u))
  {
  }

  /** Which answer a request gets: its validation error, else the refusal
      for an OPEN position, else the refusal for a short balance, else the
      new position. */
  lemma OpenOutcomes(db: Ledger, userId: nat, req: OpenRequest, now: int)
    ensures var reply := OpenPosition(db, userId, req, now).1;
            && (Validate(req).Some? ==> reply == Validate(req).value)
            && (reply == AlreadyOpen <==> Validate(req).None? && HasOpen(db.positions, userId))
            && (reply == InsufficientBalance <==>
                  Validate(req).None? && !HasOpen(db.positions, userId) && Available(db.wallets, userId) < req.amount.value)
            && (reply.Opened? <==>
                  Validate(req).None? && !HasOpen(db.positions, userId) && Available(db.wallets, userId) >= req.amount.value)
  {
  }

  /** The new row is appended with the next id, holds what the request asked
      for at the price it quoted, is OPEN and unsettled, and is picked up by
      a sweep exactly from `duration` seconds after opening. */
  lemma OpenedRow(db: Ledger, userId: nat, req: OpenRequest, now: int, t: int)
    ensures var (after, reply) := OpenPosition(db, userId, req, now);
            reply.Opened? ==>
              var p := reply.position;
              && after.positions == db.positions + [p]
              && p.id == |db.positions| && p.userId == userId && p.status == Open
              && req.symbol == Some(p.symbol) && req.currentPrice == Some(p.entryPrice)
              && req.amount == Some(p.amount) && req.duration == Some(p.duration)
              && p.profitability == req.profitability
              && req.side == Some(if p.side == BuyUp then "BUY_UP" else "BUY_DOWN")
              && p.expectedProfit == p.amount * req.profitability.value / 100.0
              && p.expectedPayout == p.amount + p.expectedProfit
              && p.createdAt == now && p.expiresAt == now + p.duration * 1000
              && p.exitPrice.None? && p.result.None? && p.actualProfit.None? && p.closedAt.None?
              && (Due(p, Some(userId), None, t) <==> t >= now + req.duration.value * 1000)
  {
  }

  /** A non-zero negative amount passes the presence check and is refused
      as non-positive; a zero amount is refused as missing. */
  lemma AmountChecks(req: OpenRequest)
    requires !FalsyString(req.symbol) && !FalsyInt(req.duration) && !FalsyNumber(req.currentPrice)
    requires !FalsyNumber(req.profitability) && req.side == Some("BUY_UP") && req.amount.Some?
    ensures req.amount.value == 0.0 ==> Validate(req) == Some(MissingFields)
    ensures req.amount.value < 0.0 ==> Validate(req) == Some(NonPositiveAmount)
    ensures req.amount.value > 0.0 ==> Validate(req) == None
  {
  }

  /** A user without a wallet row cannot open a position: the wallet is
      created with 0 available, the balance check fails and the creation is
      rolled back. */
  lemma NoWalletNoPosition(db: Ledger, userId: nat, req: OpenRequest, now: int)
    requires userId !in db.wallets
    ensures !OpenPosition(db, userId, req, now).1.Opened?
    ensures OpenPosition(db, userId, req, now).0 == db
  {
  }

  /** The expected profit shown at open is the settlement's profit before
      fee; a WIN then records 99% of it and a LOSS loses 101% of it. */
  lemma ExpectedProfitMatchesSettlement(db: Ledger, userId: nat, req: OpenRequest, now: int, driver: Driver)
    ensures var reply := OpenPosition(db, userId, req, now).1;
            reply.Opened? ==>
              var p := reply.position;
              && Settle(driver, p.amount, p.profitability, Win).profitBeforeFee == p.expectedProfit
              && Settle(driver, p.amount, p.profitability, Win).actualProfit == p.expectedProfit * 0.99
              && Settle(driver, p.amount, p.profitability, Loss).actualProfit == -(p.expectedProfit * 1.01)
              && p.expectedPayout == p.amount + p.expectedProfit
  {
  }
}
