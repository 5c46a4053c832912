/** POST /api/contract/settle-user: settles the signed-in user's expired
    positions at the price the client sends. Each position is settled in its
    own transaction; a failing transaction is skipped and the loop goes on. */
module SettleUserApi {
  import opened Common
  import opened Store
  import opened Payout
  import opened Settlement

  datatype UserReply =
    | MissingPrice                                      // 400: currentPrice is required
    | NothingToSettle                                   // 200, settled: 0
    | Settled(count: nat, positions: seq<Summary>)      // 200, settled and positions

  /** The fixed inputs of this sweep: the queue is read once, before the loop. */
  function UserSweep(db: Ledger, price: real, now: int, faults: map<nat, Fault>): Sweep
    requires ControlsIndexed(db.controls)
  {
    Sweep(Driver.UserSweep, price, now, Pending(db.controls), faults)
  }

  /** What the handler leaves in the tables and answers, as a function of the
      tables before the request. */
  function SettleUser(db: Ledger, userId: nat, price: Option<real>, symbol: Option<string>, now: int,
                      faults: map<nat, Fault>): (r: (Ledger, UserReply))
    requires ControlsIndexed(db.controls)
    ensures r.1.Settled? ==> r.1.count == |r.1.positions|
    ensures |r.0.positions| == |db.positions| && |r.0.controls| == |db.controls|
    ensures FalsyNumber(price) <==> r.1 == MissingPrice
    ensures !FalsyNumber(price) ==> (r.1 == NothingToSettle <==> Selection(db.positions, Some(userId), symbol, now) == [])
    ensures !r.1.Settled? ==> r.0 == db
  {
    if FalsyNumber(price) then (db, MissingPrice)
    else
      var expired := Selection(db.positions, Some(userId), symbol, now);
      if |expired| == 0 then (db, NothingToSettle)
      else
        var q := Run(Pass(db, 0, [], false), expired, UserSweep(db, price.value, now, faults));
        (q.db, Settled(|q.settled|, q.settled))
  }

  /** The handler: the selection and the queue are read first, then one
      transaction per expired position. */
  method SettleForUser(db: Database, userId: nat, currentPrice: Option<real>, symbol: Option<string>,
                       now: int, faults: map<nat, Fault>) returns (reply: UserReply)
    requires db.Valid()
    modifies db
    ensures db.Valid()
    ensures (db.Contract(), reply) == SettleUser(old(db.Contract()), userId, currentPrice, symbol, now, faults)
    ensures db.users == old(db.users) && db.codes == old(db.codes)
  {
    if FalsyNumber(currentPrice) {
      return MissingPrice;
    }
    var expired := Selection(db.positions, Some(userId), symbol, now);
    if |expired| == 0 {
      return NothingToSettle;
    }
    var s := UserSweep(db.Contract(), currentPrice.value, now, faults);
    var settledCount, settledPositions := SweepEach(db, expired, s);
    reply := Settled(settledCount, settledPositions);
  }

  /** The loop of the handler: one transaction per expired position, in
      order; a transaction that throws is skipped. */
  method SweepEach(db: Database, expired: seq<nat>, s: Sweep) returns (settledCount: nat, settledPositions: seq<Summary>)
    requires db.Valid() && s.driver == Driver.UserSweep
    requires Ready(Pass(db.Contract(), 0, [], false), expired, s) && Increasing(expired)
    modifies db
    ensures db.Valid()
    ensures var q := Run(Pass(old(db.Contract()), 0, [], false), expired, s);
            db.Contract() == q.db && settledPositions == q.settled && settledCount == |q.settled|
    ensures db.users == old(db.users) && db.codes == old(db.codes)
  {
    ghost var p0 := Pass(db.Contract(), 0, [], false);
    var sessionIndex := 0;
    settledCount := 0;
    settledPositions := [];
    for i := 0 to |expired|
      invariant Run(p0, expired[..i], s) == Pass(db.Contract(), sessionIndex, settledPositions, false)
      invariant settledCount == |settledPositions|
      invariant db.users == old(db.users) && db.codes == old(db.codes)
    {
      RunSnoc(p0, expired, s, i);
      var summary;
      sessionIndex, summary := Transact(db, expired[i], s, sessionIndex, settledPositions);
      if summary.Some? {
        settledPositions := settledPositions + [summary.value];
        settledCount := settledCount + 1;
      }
    }
    assert expired[..|expired|] == expired;
    RunKeepsTables(p0, expired, s);
  }

  /** The positions the handler hands to the sweep. */
  function Expired(db: Ledger, userId: nat, price: Option<real>, symbol: Option<string>, now: int): seq<nat> {
    if FalsyNumber(price) then [] else Selection(db.positions, Some(userId), symbol, now)
  }

  /** Money conservation for the caller: the wallet gains exactly the
      settlement credits of the caller's positions this request closed. */
  lemma SettleUserCredits(db: Ledger, userId: nat, price: Option<real>, symbol: Option<string>,
                          now: int, faults: map<nat, Fault>)
    requires ControlsIndexed(db.controls)
    ensures var after := SettleUser(db, userId, price, symbol, now, faults).0;
            Available(after.wallets, userId)
              == Available(db.wallets, userId)
                 + Credited(db.positions, after.positions, Expired(db, userId, price, symbol, now), userId, Driver.UserSweep)
  {
    var sel := Expired(db, userId, price, symbol, now);
    if !FalsyNumber(price) && |sel| != 0 {
      var p, s := Pass(db, 0, [], false), UserSweep(db, price.value, now, faults);
      forall k | 0 <= k < |sel| ensures db.positions[sel[k]].status == Open {
        assert Due(db.positions[sel[k]], Some(userId), symbol, now);
      }
      RunCredits(p, sel, s, userId);
    }
  }

  /** Other users' wallets and positions are untouched. */
  lemma SettleUserLeavesOthers(db: Ledger, userId: nat, price: Option<real>, symbol: Option<string>,
                               now: int, faults: map<nat, Fault>, u: nat)
    requires ControlsIndexed(db.controls) && u != userId
    ensures var after := SettleUser(db, userId, price, symbol, now, faults).0;
            && Available(after.wallets, u) == Available(db.wallets, u)
            && forall i :: 0 <= i < |db.positions| && db.positions[i].userId == u ==> after.positions[i] == db.positions[i]
  {
    var after := SettleUser(db, userId, price, symbol, now, faults).0;
    var sel := Expired(db, userId, price, symbol, now);
    if !FalsyNumber(price) && |sel| != 0 {
      var p, s := Pass(db, 0, [], false), UserSweep(db, price.value, now, faults);
      forall k | 0 <= k < |sel| ensures db.positions[sel[k]].status == Open && db.positions[sel[k]].userId != u {
        assert Due(db.positions[sel[k]], Some(userId), symbol, now);
      }
      RunCredits(p, sel, s, u);
      CreditedOnlyOwners(db.positions, after.positions, sel, u, Driver.UserSweep);
      forall i | 0 <= i < |db.positions| && db.positions[i].userId == u ensures after.positions[i] == db.positions[i] {
        RunRows(p, sel, s, i);
      }
    }
  }

  /** A position whose transaction throws is skipped: its row is left as it
      was, and so it is credited nothing. */
  lemma SettleUserSkipsFault(db: Ledger, userId: nat, price: Option<real>, symbol: Option<string>,
                             now: int, faults: map<nat, Fault>, m: nat)
    requires IdsIndexed(db)
    requires var sel := Expired(db, userId, price, symbol, now);
             m < |sel| && FaultAt(faults, sel[m]) != Commits
    ensures var after := SettleUser(db, userId, price, symbol, now, faults).0;
            var sel := Expired(db, userId, price, symbol, now);
            after.positions[sel[m]] == db.positions[sel[m]]
  {
    var sel := Expired(db, userId, price, symbol, now);
    var p, s := Pass(db, 0, [], false), UserSweep(db, price.value, now, faults);
    assert SettleUser(db, userId, price, symbol, now, faults).0 == Run(p, sel, s).db;
    ClaimedControlsRequired(db, s);
    RunSkipsFault(p, sel, s, m);
  }

  /** When the positions before it all committed and the m-th expired
      position throws after claiming the m-th queued control, that control
      is left unconsumed although the rest of the request has moved past it. */
  lemma SettleUserLosesClaim(db: Ledger, userId: nat, price: Option<real>, symbol: Option<string>,
                             now: int, faults: map<nat, Fault>, m: nat)
    requires IdsIndexed(db)
    requires var sel := Expired(db, userId, price, symbol, now);
             && m < |sel| && FaultAt(faults, sel[m]) == FailsAfterClaim && m < |Pending(db.controls)|
             && forall k :: 0 <= k < m ==> FaultAt(faults, sel[k]) == Commits
    ensures SettleUser(db, userId, price, symbol, now, faults).0.controls[Pending(db.controls)[m].id].required
  {
    var sel := Expired(db, userId, price, symbol, now);
    var p, s := Pass(db, 0, [], false), UserSweep(db, price.value, now, faults);
    assert SettleUser(db, userId, price, symbol, now, faults).0 == Run(p, sel, s).db;
    ClaimedControlsRequired(db, s);
    assert NoFaults(s, sel[..m]) by {
      forall k | 0 <= k < m ensures FaultAt(s.faults, sel[..m][k]) == Commits {
        assert sel[..m][k] == sel[k];
      }
    }
    RunNoFaults(p, sel[..m], s);
    assert Run(p, sel[..m], s).next == m;
    RunSkipsFault(p, sel, s, m);
  }

  /** The queue a sweep reads names distinct controls, each still unconsumed. */
  lemma ClaimedControlsRequired(db: Ledger, s: Sweep)
    requires ControlsIndexed(db.controls) && s.queue == Pending(db.controls)
    ensures QueueIdsIncreasing(s.queue)
    ensures forall k :: 0 <= k < |s.queue| ==> db.controls[s.queue[k].id].required
  {
  }

  /** Nobody ends up with two OPEN positions. */
  lemma SettleUserKeepsOneOpen(db: Ledger, userId: nat, price: Option<real>, symbol: Option<string>,
                               now: int, faults: map<nat, Fault>)
    requires ControlsIndexed(db.controls) && AtMostOneOpen(db.positions)
    ensures AtMostOneOpen(SettleUser(db, userId, price, symbol, now, faults).0.positions)
  {
    var sel := Expired(db, userId, price, symbol, now);
    if !FalsyNumber(price) && |sel| != 0 {
      RunKeepsAtMostOneOpen(Pass(db, 0, [], false), sel, UserSweep(db, price.value, now, faults));
    }
  }

  /** Every reported position is one of the caller's, now CLOSED with the
      reported result and profit; with no failing transaction every expired
      position is reported and none is left to settle. */
  lemma SettleUserReport(db: Ledger, userId: nat, price: Option<real>, symbol: Option<string>,
                         now: int, faults: map<nat, Fault>)
    requires IdsIndexed(db)
    ensures var (after, reply) := SettleUser(db, userId, price, symbol, now, faults);
            var sel := Expired(db, userId, price, symbol, now);
            && (reply.Settled? ==> forall k :: 0 <= k < |reply.positions| ==>
                  var e := reply.positions[k];
                  && e.id < |after.positions|
                  && db.positions[e.id].userId == userId
                  && after.positions[e.id].status == Closed
                  && after.positions[e.id].result == Some(e.result)
                  && after.positions[e.id].actualProfit == Some(e.actualProfit))
            && (!FalsyNumber(price) && NoFaults(UserSweep(db, price.value, now, faults), sel) ==>
                  && (reply.Settled? <==> sel != [])
                  && (reply.Settled? ==> reply.count == |sel|)
                  && Selection(after.positions, Some(userId), symbol, now) == [])
  {
    var (after, reply) := SettleUser(db, userId, price, symbol, now, faults);
    var sel := Expired(db, userId, price, symbol, now);
    if reply.Settled? {
      var p, s := Pass(db, 0, [], false), UserSweep(db, price.value, now, faults);
      forall k | 0 <= k < |reply.positions|
        ensures var e := reply.positions[k];
                && e.id < |after.positions|
                && db.positions[e.id].userId == userId
                && after.positions[e.id].status == Closed
                && after.positions[e.id].result == Some(e.result)
                && after.positions[e.id].actualProfit == Some(e.actualProfit)
      {
        RunSummary(p, sel, s, k);
        var e := reply.positions[k];
        var m :| 0 <= m < |sel| && sel[m] == e.id;
        assert Due(db.positions[sel[m]], Some(userId), symbol, now);
      }
      if NoFaults(s, sel) {
        RunNoFaults(p, sel, s);
        SweepLeavesNothingDue(p, s, Some(userId), symbol, now);
      }
    }
  }
}
