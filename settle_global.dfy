/** POST /api/contract/settle: the periodic sweep over every user's expired
    positions, optionally for one symbol. Each position is settled in its own
    transaction and there is no per-position catch: the first transaction
    that throws ends the request with a 500, leaving the earlier ones
    committed. GET checks its query parameters and delegates to POST. */
module SettleGlobalApi {
  import opened Common
  import opened Text
  import opened Store
  import opened Payout
  import opened Settlement

  datatype GlobalReply =
    | MissingParams                 // GET, 400: symbol and currentPrice are required
    | InvalidPrice                  // GET, 400: currentPrice is not a number
    | MissingPrice                  // 400: currentPrice is required
    | NothingToSettle               // 200, settled: 0
    | SweepDone(count: nat)         // 200, settled: count
    | ServerError                   // 500

  function GlobalSweep(db: Ledger, price: real, now: int, faults: map<nat, Fault>): Sweep
    requires ControlsIndexed(db.controls)
  {
    Sweep(Driver.GlobalSweep, price, now, Pending(db.controls), faults)
  }

  /** The positions the handler hands to the sweep. */
  function ExpiredAll(db: Ledger, price: Option<real>, symbol: Option<string>, now: int): seq<nat> {
    if FalsyNumber(price) then [] else Selection(db.positions, None, symbol, now)
  }

  /** What POST leaves in the tables and answers. */
  function SettleAll(db: Ledger, price: Option<real>, symbol: Option<string>, now: int,
                     faults: map<nat, Fault>): (r: (Ledger, GlobalReply))
    requires ControlsIndexed(db.controls)
    ensures |r.0.positions| == |db.positions| && |r.0.controls| == |db.controls|
    ensures FalsyNumber(price) <==> r.1 == MissingPrice
    ensures r.1 != MissingParams && r.1 != InvalidPrice
    ensures r.1.SweepDone? ==> r.1.count == |ExpiredAll(db, price, symbol, now)|
  {
    var expired := ExpiredAll(db, price, symbol, now);
    if FalsyNumber(price) then (db, MissingPrice)
    else if |expired| == 0 then (db, NothingToSettle)
    else
      var s := GlobalSweep(db, price.value, now, faults);
      var q := Run(Pass(db, 0, [], false), expired, s);
      GlobalSweepAbortsIff(Pass(db, 0, [], false), expired, s);
      if !q.aborted then RunNoFaults(Pass(db, 0, [], false), expired, s); (q.db, SweepDone(|q.settled|))
      else (q.db, ServerError)
  }

  method SettleAllPost(db: Database, currentPrice: Option<real>, symbol: Option<string>, now: int,
                       faults: map<nat, Fault>) returns (reply: GlobalReply)
    requires db.Valid()
    modifies db
    ensures db.Valid()
    ensures (db.Contract(), reply) == SettleAll(old(db.Contract()), currentPrice, symbol, now, faults)
    ensures db.users == old(db.users) && db.codes == old(db.codes)
  {
    if FalsyNumber(currentPrice) {
      return MissingPrice;
    }
    var expired := Selection(db.positions, None, symbol, now);
    if |expired| == 0 {
      return NothingToSettle;
    }
    var s := GlobalSweep(db.Contract(), currentPrice.value, now, faults);
    var failed, settledCount := SweepUntilFault(db, expired, s);
    if failed {
      return ServerError;
    }
    reply := SweepDone(settledCount);
  }

  /** The loop of POST: one transaction per expired position, in order,
      ending the request at the first one that throws. */
  method SweepUntilFault(db: Database, expired: seq<nat>, s: Sweep) returns (failed: bool, settledCount: nat)
    requires db.Valid() && s.driver == Driver.GlobalSweep
    requires Ready(Pass(db.Contract(), 0, [], false), expired, s) && Increasing(expired)
    modifies db
    ensures db.Valid()
    ensures var q := Run(Pass(old(db.Contract()), 0, [], false), expired, s);
            db.Contract() == q.db && failed == q.aborted && settledCount == |q.settled|
    ensures db.users == old(db.users) && db.codes == old(db.codes)
  {
    ghost var p0 := Pass(db.Contract(), 0, [], false);
    var sessionIndex := 0;
    settledCount := 0;
    ghost var settled: seq<Summary> := [];
    for i := 0 to |expired|
      invariant Run(p0, expired[..i], s) == Pass(db.Contract(), sessionIndex, settled, false)
      invariant settledCount == |settled|
      invariant db.users == old(db.users) && db.codes == old(db.codes)
    {
      RunSnoc(p0, expired, s, i);
      var summary;
      sessionIndex, summary := Transact(db, expired[i], s, sessionIndex, settled);
      if summary.None? {
        AbortedStays(p0, expired, s, i + 1);
        RunKeepsTables(p0, expired, s);
        return true, settledCount;
      }
      settled := settled + [summary.value];
      settledCount := settledCount + 1;
    }
    assert expired[..|expired|] == expired;
    RunKeepsTables(p0, expired, s);
    failed := false;
  }

  /** What GET answers for its query parameters. */
  function SettleByQuery(db: Ledger, symbol: Option<string>, priceText: Option<string>, now: int,
                         faults: map<nat, Fault>): (r: (Ledger, GlobalReply))
    requires ControlsIndexed(db.controls)
    ensures (FalsyString(symbol) || FalsyString(priceText)) <==> r.1 == MissingParams
    ensures r.1 == InvalidPrice <==> !FalsyString(symbol) && !FalsyString(priceText) && ParseFloat(priceText.value).None?
    ensures !FalsyString(symbol) && !FalsyString(priceText) && ParseFloat(priceText.value).Some? ==>
              r == SettleAll(db, ParseFloat(priceText.value), symbol, now, faults)
  {
    if FalsyString(symbol) || FalsyString(priceText) then (db, MissingParams)
    else match ParseFloat(priceText.value)
      case None => (db, InvalidPrice)
      case Some(price) => SettleAll(db, Some(price), symbol, now, faults)
  }

  method SettleAllGet(db: Database, symbol: Option<string>, priceText: Option<string>, now: int,
                      faults: map<nat, Fault>) returns (reply: GlobalReply)
    requires db.Valid()
    modifies db
    ensures db.Valid()
    ensures (db.Contract(), reply) == SettleByQuery(old(db.Contract()), symbol, priceText, now, faults)
    ensures db.users == old(db.users) && db.codes == old(db.codes)
  {
    if FalsyString(symbol) || FalsyString(priceText) {
      return MissingParams;
    }
    var currentPrice := ParseFloat(priceText.value);
    if currentPrice.None? {
      return InvalidPrice;
    }
    reply := SettleAllPost(db, currentPrice, symbol, now, faults);
  }

  /** Money conservation: every wallet gains exactly the settlement credits
      of its owner's positions this request closed, including those closed
      before a failing transaction ended the request. */
  lemma SettleAllCredits(db: Ledger, price: Option<real>, symbol: Option<string>, now: int,
                         faults: map<nat, Fault>, u: nat)
    requires ControlsIndexed(db.controls)
    ensures var after := SettleAll(db, price, symbol, now, faults).0;
            Available(after.wallets, u)
              == Available(db.wallets, u) + Credited(db.positions, after.positions, ExpiredAll(db, price, symbol, now), u, Driver.GlobalSweep)
  {
    var sel := ExpiredAll(db, price, symbol, now);
    if !FalsyNumber(price) && |sel| != 0 {
      forall k | 0 <= k < |sel| ensures db.positions[sel[k]].status == Open {
        assert Due(db.positions[sel[k]], None, symbol, now);
      }
      RunCredits(Pass(db, 0, [], false), sel, GlobalSweep(db, price.value, now, faults), u);
    }
  }

  /** A transaction that throws ends the request with a 500 and the
      positions selected after it stay as they were. */
  lemma SettleAllStopsAtFault(db: Ledger, price: Option<real>, symbol: Option<string>, now: int,
                              faults: map<nat, Fault>, k: nat, j: nat)
    requires ControlsIndexed(db.controls)
    requires var sel := ExpiredAll(db, price, symbol, now);
             k < j < |sel| && FaultAt(faults, sel[k]) != Commits
    ensures var (after, reply) := SettleAll(db, price, symbol, now, faults);
            var sel := ExpiredAll(db, price, symbol, now);
            reply == ServerError && after.positions[sel[j]] == db.positions[sel[j]]
  {
    var sel := ExpiredAll(db, price, symbol, now);
    GlobalSweepStopsAtFault(Pass(db, 0, [], false), sel, GlobalSweep(db, price.value, now, faults), k, j);
  }

  /** With no failing transaction every selected position is settled and
      none is left due in the swept scope. */
  lemma SettleAllNoFaults(db: Ledger, price: Option<real>, symbol: Option<string>, now: int,
                          faults: map<nat, Fault>)
    requires ControlsIndexed(db.controls) && !FalsyNumber(price)
    requires NoFaults(GlobalSweep(db, price.value, now, faults), ExpiredAll(db, price, symbol, now))
    ensures var (after, reply) := SettleAll(db, price, symbol, now, faults);
            var sel := ExpiredAll(db, price, symbol, now);
            && reply == (if sel == [] then NothingToSettle else SweepDone(|sel|))
            && Selection(after.positions, None, symbol, now) == []
  {
    var sel := ExpiredAll(db, price, symbol, now);
    var p, s := Pass(db, 0, [], false), GlobalSweep(db, price.value, now, faults);
    GlobalSweepAbortsIff(p, sel, s);
    SweepLeavesNothingDue(p, s, None, symbol, now);
  }

  /** GET with a symbol and a plain decimal price behaves as POST with that
      price; in particular `currentPrice=0` parses but is then refused as
      missing. */
  lemma QueryDelegates(db: Ledger, symbol: string, n: nat, now: int, faults: map<nat, Fault>)
    requires ControlsIndexed(db.controls) && symbol != ""
    ensures SettleByQuery(db, Some(symbol), Some(NatToString(n)), now, faults)
         == SettleAll(db, Some(n as real), Some(symbol), now, faults)
    ensures n == 0 ==> SettleByQuery(db, Some(symbol), Some(NatToString(n)), now, faults).1 == MissingPrice
  {
    NatParseRoundTrip(n);
  }
}
