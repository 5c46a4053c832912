/** The settlement engine shared by both sweeps: which positions a sweep
    selects, the queue of session controls it reads once, and the effect of
    settling the selected positions one transaction at a time. `Step` is one
    position's transaction and `Run` a whole sweep; the request handlers in
    settle_user.dfy and settle_global.dfy are loops proved equal to `Run`. */
module Settlement {
  import opened Common
  import opened Store
  import opened Payout

  /** A position a sweep picks: OPEN, expired by `now`, of `owner` when the
      sweep is for one user, and of `symbol` when a non-empty one is given. */
  predicate Due(p: Position, owner: Option<nat>, symbol: Option<string>, now: int) {
    && p.status == Open
    && p.expiresAt <= now
    && (owner.Some? ==> p.userId == owner.value)
    && (!FalsyString(symbol) ==> p.symbol == symbol.value)
  }

  function SelectFrom(ps: seq<Position>, lo: nat, owner: Option<nat>, symbol: Option<string>, now: int): (ids: seq<nat>)
    requires lo <= |ps|
    ensures Increasing(ids)
    ensures forall k :: 0 <= k < |ids| ==> lo <= ids[k] < |ps| && Due(ps[ids[k]], owner, symbol, now)
    ensures forall i :: lo <= i < |ps| && Due(ps[i], owner, symbol, now) ==> i in ids
    decreases |ps| - lo
  {
    if lo == |ps| then []
    else if Due(ps[lo], owner, symbol, now) then [lo] + SelectFrom(ps, lo + 1, owner, symbol, now)
    else SelectFrom(ps, lo + 1, owner, symbol, now)
  }

  /** The ids `findMany` returns, in table order: exactly the due positions. */
  function Selection(ps: seq<Position>, owner: Option<nat>, symbol: Option<string>, now: int): (ids: seq<nat>)
    ensures Increasing(ids)
    ensures forall k :: 0 <= k < |ids| ==> ids[k] < |ps|
    ensures forall i :: 0 <= i < |ps| ==> (i in ids <==> Due(ps[i], owner, symbol, now))
  {
    SelectFrom(ps, 0, owner, symbol, now)
  }

  predicate ControlsIndexed(cs: seq<Control>) {
    forall i :: 0 <= i < |cs| ==> cs[i].id == i
  }

  function PendingFrom(cs: seq<Control>, lo: nat): (q: seq<Control>)
    requires lo <= |cs| && ControlsIndexed(cs)
    ensures forall k :: 0 <= k < |q| ==> lo <= q[k].id < |cs| && cs[q[k].id] == q[k] && q[k].required
    ensures forall j, k :: 0 <= j < k < |q| ==> q[j].id < q[k].id
    ensures forall i :: lo <= i < |cs| && cs[i].required ==> cs[i] in q
    decreases |cs| - lo
  {
    if lo == |cs| then []
    else if cs[lo].required then [cs[lo]] + PendingFrom(cs, lo + 1)
    else PendingFrom(cs, lo + 1)
  }

  /** The session-control queue as read at the start of a sweep
      (`required = true`, oldest first): every unconsumed control, once. */
  function Pending(cs: seq<Control>): (q: seq<Control>)
    requires ControlsIndexed(cs)
    ensures forall k :: 0 <= k < |q| ==> q[k].id < |cs| && cs[q[k].id] == q[k] && q[k].required
    ensures forall j, k :: 0 <= j < k < |q| ==> q[j].id < q[k].id
    ensures forall i :: 0 <= i < |cs| && cs[i].required ==> cs[i] in q
  {
    PendingFrom(cs, 0)
  }

  /** With controls stored in creation order, the queue is oldest first. */
  lemma QueueOldestFirst(cs: seq<Control>)
    requires ControlsIndexed(cs) && ControlsChronological(cs)
    ensures var q := Pending(cs);
            forall j, k :: 0 <= j < k < |q| ==> q[j].createdAt <= q[k].createdAt
  {
    var q := Pending(cs);
    forall j, k | 0 <= j < k < |q|
      ensures q[j].createdAt <= q[k].createdAt
    {
      assert cs[q[j].id] == q[j] && cs[q[k].id] == q[k];
    }
  }

  /** How one position's transaction ends: it commits, it fails before the
      callback runs (nothing happens), or it throws after the queue was read
      (the database rolls back but the in-memory queue index has moved on). */
  datatype Fault = Commits | FailsBeforeClaim | FailsAfterClaim

  function FaultAt(faults: map<nat, Fault>, id: nat): Fault {
    if id in faults then faults[id] else Commits
  }

  /** The fixed inputs of one sweep. */
  datatype Sweep = Sweep(driver: Driver, price: real, now: int, queue: seq<Control>, faults: map<nat, Fault>)

  /** What the per-user sweep reports of each settled position. */
  datatype Summary = Summary(id: nat, symbol: string, side: Side, result: Outcome, actualProfit: real)

  /** The state threaded through a sweep's loop: the tables, the queue index,
      the positions settled so far, and whether an exception ended the loop. */
  datatype Pass = Pass(db: Ledger, next: nat, settled: seq<Summary>, aborted: bool)

  /** The row written when a position is settled. */
  function Close(p: Position, driver: Driver, price: real, now: int, outcome: Outcome): Position {
    p.(status := Closed,
       exitPrice := Some(price),
       actualProfit := Some(Settle(driver, p.amount, p.profitability, outcome).actualProfit),
       result := Some(outcome),
       closedAt := Some(now))
  }

  function Summarize(p: Position): Summary
    requires p.result.Some? && p.actualProfit.Some?
  {
    Summary(p.id, p.symbol, p.side, p.result.value, p.actualProfit.value)
  }

  /** Marks a control consumed. */
  function Consume(cs: seq<Control>, id: nat): seq<Control>
    requires id < |cs|
  {
    cs[id := cs[id].(required := false)]
  }

  predicate QueueFits(queue: seq<Control>, n: nat) {
    forall k :: 0 <= k < |queue| ==> queue[k].id < n
  }

  /** `after` is `before` as a sweep closes it. */
  predicate ClosedBy(before: Position, after: Position, s: Sweep) {
    after.result.Some? && after == Close(before, s.driver, s.price, s.now, after.result.value)
  }

  /** The outcome of the position settled while the queue index is `next`:
      the queued control's forced result, or the price rule once the queue
      is used up. */
  function Decide(next: nat, row: Position, s: Sweep): Outcome {
    if next < |s.queue| then s.queue[next].final else PriceOutcome(row.side, row.entryPrice, s.price)
  }

  /** The queue index after a position has read the queue. */
  function Advance(next: nat, s: Sweep): nat {
    if next < |s.queue| then next + 1 else next
  }

  /** A transaction that commits: credit the wallet, close the row, consume
      the claimed control. */
  function Commit(p: Pass, id: nat, s: Sweep): (q: Pass)
    requires id < |p.db.positions| && QueueFits(s.queue, |p.db.controls|)
    ensures var row := p.db.positions[id];
            var outcome := Decide(p.next, row, s);
            && q.db.positions == p.db.positions[id := Close(row, s.driver, s.price, s.now, outcome)]
            && q.db.wallets == Credit(p.db.wallets, row.userId, Settle(s.driver, row.amount, row.profitability, outcome).credit)
            && q.db.controls == (if p.next < |s.queue| then Consume(p.db.controls, s.queue[p.next].id) else p.db.controls)
            && q.next == Advance(p.next, s) && !q.aborted
            && q.settled == p.settled + [Summarize(q.db.positions[id])]
  {
    var position := p.db.positions[id];
    var outcome := Decide(p.next, position, s);
    var pay := Settle(s.driver, position.amount, position.profitability, outcome);
    var controls := if p.next < |s.queue| then Consume(p.db.controls, s.queue[p.next].id) else p.db.controls;
    var closed := Close(position, s.driver, s.price, s.now, outcome);
    Pass(Ledger(Credit(p.db.wallets, position.userId, pay.credit), p.db.positions[id := closed], controls),
         Advance(p.next, s), p.settled + [Summarize(closed)], false)
  }

  /** One position's transaction: all or nothing. */
  function Step(p: Pass, id: nat, s: Sweep): (q: Pass)
    requires id < |p.db.positions| && QueueFits(s.queue, |p.db.controls|)
    ensures |q.db.positions| == |p.db.positions| && |q.db.controls| == |p.db.controls|
    ensures q.db.positions[id] == p.db.positions[id] || ClosedBy(p.db.positions[id], q.db.positions[id], s)
    ensures !p.aborted && FaultAt(s.faults, id) == Commits ==>
              q.db.positions[id] == Close(p.db.positions[id], s.driver, s.price, s.now, Decide(p.next, p.db.positions[id], s))
    ensures p.next <= q.next <= p.next + 1 && (p.next <= |s.queue| ==> q.next <= |s.queue|)
    ensures p.settled <= q.settled
    ensures p.aborted || FaultAt(s.faults, id) != Commits ==> q.db == p.db && q.settled == p.settled
    ensures q.aborted <==> p.aborted || (FaultAt(s.faults, id) != Commits && s.driver == GlobalSweep)
    ensures !p.aborted && FaultAt(s.faults, id) == FailsBeforeClaim ==> q.next == p.next
    ensures !p.aborted && FaultAt(s.faults, id) == FailsAfterClaim ==> q.next == Advance(p.next, s)
  {
    if p.aborted then p
    else
      match FaultAt(s.faults, id)
      case FailsBeforeClaim => p.(aborted := s.driver == GlobalSweep)
      case FailsAfterClaim => p.(next := Advance(p.next, s), aborted := s.driver == GlobalSweep)
      case Commits => Commit(p, id, s)
  }

  /** One transaction writes only its own row, its owner's wallet and the
      control it claims, and that control only by consuming it. */
  lemma StepFrame(p: Pass, id: nat, s: Sweep)
    requires id < |p.db.positions| && QueueFits(s.queue, |p.db.controls|)
    ensures var q := Step(p, id, s);
            && (forall i :: 0 <= i < |p.db.positions| && i != id ==> q.db.positions[i] == p.db.positions[i])
            && (forall u :: u != p.db.positions[id].userId ==> Available(q.db.wallets, u) == Available(p.db.wallets, u))
            && (forall c :: 0 <= c < |p.db.controls| ==>
                  q.db.controls[c] == p.db.controls[c] || q.db.controls[c] == p.db.controls[c].(required := false))
  {
  }

  predicate Ready(p: Pass, sel: seq<nat>, s: Sweep) {
    && (forall k :: 0 <= k < |sel| ==> sel[k] < |p.db.positions|)
    && QueueFits(s.queue, |p.db.controls|)
  }

  /** A sweep over the selected ids, in order. */
  function Run(p: Pass, sel: seq<nat>, s: Sweep): (q: Pass)
    requires Ready(p, sel, s)
    ensures |q.db.positions| == |p.db.positions| && |q.db.controls| == |p.db.controls|
    ensures p.next <= q.next && (p.next <= |s.queue| ==> q.next <= |s.queue|)
    ensures p.settled <= q.settled
    decreases |sel|
  {
    if sel == [] then p
    else Step(Run(p, sel[..|sel| - 1], s), sel[|sel| - 1], s)
  }

  /** Rows outside the selection are untouched; a selected row is either
      untouched (its transaction failed) or closed by this sweep. */
  lemma {:induction false} RunRows(p: Pass, sel: seq<nat>, s: Sweep, id: nat)
    requires Ready(p, sel, s) && Increasing(sel) && id < |p.db.positions|
    ensures var after := Run(p, sel, s).db.positions[id];
            && (id !in sel ==> after == p.db.positions[id])
            && (after == p.db.positions[id] || ClosedBy(p.db.positions[id], after, s))
  {
    if sel != [] {
      var pre, last := sel[..|sel| - 1], sel[|sel| - 1];
      RunRows(p, pre, s, id);
      if id == last {
        assert id !in pre by {
          forall k | 0 <= k < |pre| ensures pre[k] < last { }
        }
      } else {
        assert id in sel <== id in pre;
      }
    }
  }

  /** The sweep keeps the one-open-position-per-user rule. */
  lemma RunKeepsAtMostOneOpen(p: Pass, sel: seq<nat>, s: Sweep)
    requires Ready(p, sel, s) && Increasing(sel) && AtMostOneOpen(p.db.positions)
    ensures AtMostOneOpen(Run(p, sel, s).db.positions)
  {
    var q := Run(p, sel, s);
    forall i, j | 0 <= i < j < |q.db.positions| && q.db.positions[i].status == Open && q.db.positions[j].status == Open
      ensures q.db.positions[i].userId != q.db.positions[j].userId
    {
      RunRows(p, sel, s, i);
      RunRows(p, sel, s, j);
    }
  }

  /** Controls change only by being consumed, and only those the sweep's
      queue index passed over. */
  lemma {:induction false} RunControls(p: Pass, sel: seq<nat>, s: Sweep, c: nat)
    requires Ready(p, sel, s) && c < |p.db.controls| && p.next <= |s.queue|
    ensures var q := Run(p, sel, s);
            || q.db.controls[c] == p.db.controls[c]
            || (&& q.db.controls[c] == p.db.controls[c].(required := false)
                && exists j :: p.next <= j < q.next && s.queue[j].id == c)
  {
    if sel != [] {
      var pre, last := sel[..|sel| - 1], sel[|sel| - 1];
      var r := Run(p, pre, s);
      var q := Step(r, last, s);
      RunControls(p, pre, s, c);
      if r.db.controls[c] != p.db.controls[c] {
        var j :| p.next <= j < r.next && s.queue[j].id == c;
        assert p.next <= j < q.next;
      } else if q.db.controls[c] != r.db.controls[c] {
        assert s.queue[r.next].id == c;
      }
    }
  }

  /** With no failing transaction, every queue entry the index passed over is
      consumed. */
  lemma {:induction false} RunConsumes(p: Pass, sel: seq<nat>, s: Sweep, j: nat)
    requires Ready(p, sel, s) && NoFaults(s, sel) && p.next <= |s.queue|
    requires p.next <= j < Run(p, sel, s).next
    ensures !Run(p, sel, s).db.controls[s.queue[j].id].required
  {
    var pre, last := sel[..|sel| - 1], sel[|sel| - 1];
    var r := Run(p, pre, s);
    if j < r.next {
      RunConsumes(p, pre, s, j);
    }
  }

  predicate NoFaults(s: Sweep, sel: seq<nat>) {
    forall k :: 0 <= k < |sel| ==> FaultAt(s.faults, sel[k]) == Commits
  }

  /** With no failing transaction a sweep settles every selected position
      and advances the queue index once per position until the queue is
      used up. */
  lemma {:induction false} RunNoFaults(p: Pass, sel: seq<nat>, s: Sweep)
    requires Ready(p, sel, s) && NoFaults(s, sel) && !p.aborted && p.next <= |s.queue|
    ensures var q := Run(p, sel, s);
            && !q.aborted
            && q.next == Min(p.next + |sel|, |s.queue|)
            && |q.settled| == |p.settled| + |sel|
  {
    if sel != [] {
      RunNoFaults(p, sel[..|sel| - 1], s);
    }
  }

  /** With no failing transaction the m-th selected position takes the
      outcome of the m-th queued control, or the price rule once the queue
      is used up, and is closed with it. */
  lemma {:induction false} RunOutcomes(p: Pass, sel: seq<nat>, s: Sweep, m: nat)
    requires Ready(p, sel, s) && Increasing(sel) && NoFaults(s, sel) && !p.aborted && p.next <= |s.queue|
    requires m < |sel|
    ensures var after := Run(p, sel, s).db.positions[sel[m]];
            after.status == Closed && after.result == Some(Decide(p.next + m, p.db.positions[sel[m]], s))
  {
    var pre, last := sel[..|sel| - 1], sel[|sel| - 1];
    PrefixFacts(p, sel, s);
    var r := Run(p, pre, s);
    assert Run(p, sel, s) == Step(r, last, s);
    if m == |sel| - 1 {
      RunNoFaults(p, pre, s);
      RunUnselected(p, pre, s, last);
      DecideMin(p.next + m, p.db.positions[last], s);
    } else {
      RunOutcomes(p, pre, s, m);
      assert sel[m] == pre[m] && sel[m] != last;
      StepFrame(r, last, s);
    }
  }

  /** An index past the end of the queue decides like the end of the queue. */
  lemma DecideMin(n: nat, row: Position, s: Sweep)
    ensures Decide(Min(n, |s.queue|), row, s) == Decide(n, row, s)
  {
  }

  /** A row the sweep did not select is left as it was. */
  lemma {:induction false} RunUnselected(p: Pass, sel: seq<nat>, s: Sweep, id: nat)
    requires Ready(p, sel, s) && id < |p.db.positions| && id !in sel
    ensures Run(p, sel, s).db.positions[id] == p.db.positions[id]
  {
    if sel != [] {
      var pre, last := sel[..|sel| - 1], sel[|sel| - 1];
      assert id in sel <== id in pre;
      RunUnselected(p, pre, s, id);
      StepFrame(Run(p, pre, s), last, s);
    }
  }

  /** What the proofs by induction need to know of the selection without its
      last element. */
  lemma PrefixFacts(p: Pass, sel: seq<nat>, s: Sweep)
    requires Ready(p, sel, s) && sel != []
    ensures var pre := sel[..|sel| - 1];
            && Ready(p, pre, s)
            && (NoFaults(s, sel) ==> NoFaults(s, pre))
            && (Increasing(sel) ==> Increasing(pre) && sel[|sel| - 1] !in pre)
  {
    var pre, last := sel[..|sel| - 1], sel[|sel| - 1];
    if Increasing(sel) {
      forall k | 0 <= k < |pre| ensures pre[k] < last { }
    }
  }

  predicate PositionsIndexed(ps: seq<Position>) {
    forall i :: 0 <= i < |ps| ==> ps[i].id == i
  }

  /** Every summary a sweep adds describes a selected row as it now stands:
      CLOSED, with the reported result and profit. */
  lemma {:induction false} RunSummary(p: Pass, sel: seq<nat>, s: Sweep, k: nat)
    requires Ready(p, sel, s) && Increasing(sel) && PositionsIndexed(p.db.positions)
    requires |p.settled| <= k < |Run(p, sel, s).settled|
    ensures var q := Run(p, sel, s);
            var e := q.settled[k];
            && e.id in sel
            && q.db.positions[e.id].status == Closed
            && q.db.positions[e.id].result == Some(e.result)
            && q.db.positions[e.id].actualProfit == Some(e.actualProfit)
  {
    var pre, last := sel[..|sel| - 1], sel[|sel| - 1];
    var r := Run(p, pre, s);
    var q := Step(r, last, s);
    assert Run(p, sel, s) == q;
    PrefixFacts(p, sel, s);
    if k < |r.settled| {
      RunSummary(p, pre, s, k);
      assert q.settled[k] == r.settled[k];
      assert r.settled[k].id in pre;
    } else {
      RunRows(p, pre, s, last);
      assert q.settled[k] == Summarize(q.db.positions[last]);
    }
  }

  /** A sweep keeps row ids equal to their places and controls in creation
      order. */
  lemma RunKeepsTables(p: Pass, sel: seq<nat>, s: Sweep)
    requires Ready(p, sel, s) && Increasing(sel) && p.next <= |s.queue|
    requires IdsIndexed(p.db) && ControlsChronological(p.db.controls)
    ensures IdsIndexed(Run(p, sel, s).db) && ControlsChronological(Run(p, sel, s).db.controls)
  {
    var q := Run(p, sel, s);
    forall i | 0 <= i < |q.db.positions| ensures q.db.positions[i].id == i {
      RunRows(p, sel, s, i);
    }
    forall c | 0 <= c < |q.db.controls|
      ensures q.db.controls[c].id == c && q.db.controls[c].createdAt == p.db.controls[c].createdAt
    {
      RunControls(p, sel, s, c);
    }
  }

  /** What a sweep credits to `user`: the settlement credit of every selected
      position of that user it closed. */
  function Credited(before: seq<Position>, after: seq<Position>, sel: seq<nat>, user: nat, driver: Driver): real
    requires |before| == |after| && forall k :: 0 <= k < |sel| ==> sel[k] < |before|
  {
    if sel == [] then 0.0
    else
      var id := sel[|sel| - 1];
      Credited(before, after, sel[..|sel| - 1], user, driver) + RowCredit(before[id], after[id], user, driver)
  }

  lemma {:induction false} CreditedFrame(before: seq<Position>, a1: seq<Position>, a2: seq<Position>, sel: seq<nat>, user: nat, driver: Driver)
    requires |before| == |a1| == |a2| && forall k :: 0 <= k < |sel| ==> sel[k] < |before|
    requires forall k :: 0 <= k < |sel| ==> a1[sel[k]] == a2[sel[k]]
    ensures Credited(before, a1, sel, user, driver) == Credited(before, a2, sel, user, driver)
  {
    if sel != [] {
      CreditedFrame(before, a1, a2, sel[..|sel| - 1], user, driver);
    }
  }

  /** A sweep credits nothing to a user none of whose positions it selected. */
  lemma {:induction false} CreditedOnlyOwners(before: seq<Position>, after: seq<Position>, sel: seq<nat>, user: nat, driver: Driver)
    requires |before| == |after| && forall k :: 0 <= k < |sel| ==> sel[k] < |before|
    requires forall k :: 0 <= k < |sel| ==> before[sel[k]].userId != user
    ensures Credited(before, after, sel, user, driver) == 0.0
  {
    if sel != [] {
      CreditedOnlyOwners(before, after, sel[..|sel| - 1], user, driver);
    }
  }

  /** The credit `Credited` counts for one row. */
  function RowCredit(before: Position, after: Position, user: nat, driver: Driver): real {
    if before.userId == user && before.status == Open && after.status == Closed && after.result.Some?
    then Settle(driver, after.amount, after.profitability, after.result.value).credit
    else 0.0
  }

  /** One transaction credits the owner of its position with that position's
      settlement credit, and nobody else with anything. */
  lemma StepCredits(r: Pass, id: nat, s: Sweep, user: nat)
    requires id < |r.db.positions| && QueueFits(s.queue, |r.db.controls|) && r.db.positions[id].status == Open
    ensures var q := Step(r, id, s);
            Available(q.db.wallets, user)
              == Available(r.db.wallets, user) + RowCredit(r.db.positions[id], q.db.positions[id], user, s.driver)
  {
    var q := Step(r, id, s);
    var row := r.db.positions[id];
    if !r.aborted && FaultAt(s.faults, id) == Commits {
      var outcome := Decide(r.next, row, s);
      var closed := Close(row, s.driver, s.price, s.now, outcome);
      assert q.db.positions[id] == closed;
      assert closed.amount == row.amount && closed.profitability == row.profitability && closed.result == Some(outcome);
      assert q.db.wallets == Credit(r.db.wallets, row.userId, Settle(s.driver, row.amount, row.profitability, outcome).credit);
    }
  }

  /** Money conservation: every wallet ends with what it had plus the
      settlement credits of exactly the positions this sweep closed. */
  lemma {:induction false} RunCredits(p: Pass, sel: seq<nat>, s: Sweep, user: nat)
    requires Ready(p, sel, s) && Increasing(sel)
    requires forall k :: 0 <= k < |sel| ==> p.db.positions[sel[k]].status == Open
    ensures var q := Run(p, sel, s);
            Available(q.db.wallets, user)
              == Available(p.db.wallets, user) + Credited(p.db.positions, q.db.positions, sel, user, s.driver)
  {
    if sel != [] {
      var pre, last := sel[..|sel| - 1], sel[|sel| - 1];
      var r := Run(p, pre, s);
      var q := Step(r, last, s);
      assert Run(p, sel, s) == q;
      PrefixFacts(p, sel, s);
      RunCredits(p, pre, s, user);
      CreditedFrame(p.db.positions, r.db.positions, q.db.positions, pre, user, s.driver);
      RunRows(p, pre, s, last);
      StepCredits(r, last, s, user);
      assert Credited(p.db.positions, q.db.positions, sel, user, s.driver)
          == Credited(p.db.positions, q.db.positions, pre, user, s.driver)
             + RowCredit(p.db.positions[last], q.db.positions[last], user, s.driver);
    }
  }

  /** Once an exception has ended the loop, the remaining positions are not
      touched. */
  lemma {:induction false} AbortedStays(p: Pass, sel: seq<nat>, s: Sweep, k: nat)
    requires Ready(p, sel, s) && k <= |sel| && Run(p, sel[..k], s).aborted
    ensures Run(p, sel, s) == Run(p, sel[..k], s)
  {
    if k < |sel| {
      var pre := sel[..|sel| - 1];
      assert pre[..k] == sel[..k];
      AbortedStays(p, pre, s, k);
    } else {
      assert sel[..k] == sel;
    }
  }

  /** The per-user sweep never ends its loop early. */
  lemma {:induction false} UserSweepNeverAborts(p: Pass, sel: seq<nat>, s: Sweep)
    requires Ready(p, sel, s) && s.driver == UserSweep && !p.aborted
    ensures !Run(p, sel, s).aborted
  {
    if sel != [] {
      UserSweepNeverAborts(p, sel[..|sel| - 1], s);
    }
  }

  /** The global sweep ends its loop early exactly when one of the selected
      positions' transactions throws. */
  lemma {:induction false} GlobalSweepAbortsIff(p: Pass, sel: seq<nat>, s: Sweep)
    requires Ready(p, sel, s) && s.driver == GlobalSweep && !p.aborted
    ensures Run(p, sel, s).aborted <==> !NoFaults(s, sel)
  {
    if sel != [] {
      var pre := sel[..|sel| - 1];
      GlobalSweepAbortsIff(p, pre, s);
      if !NoFaults(s, pre) {
        var k :| 0 <= k < |pre| && FaultAt(s.faults, pre[k]) != Commits;
        assert sel[k] == pre[k];
      }
      if NoFaults(s, pre) && FaultAt(s.faults, sel[|sel| - 1]) == Commits {
        forall k | 0 <= k < |sel| ensures FaultAt(s.faults, sel[k]) == Commits {
          if k < |pre| { assert sel[k] == pre[k]; }
        }
      }
    }
  }

  /** Once a transaction of the global sweep throws, the positions selected
      after it are left as they were. */
  lemma GlobalSweepStopsAtFault(p: Pass, sel: seq<nat>, s: Sweep, k: nat, j: nat)
    requires Ready(p, sel, s) && Increasing(sel) && s.driver == GlobalSweep && !p.aborted
    requires k < j < |sel| && FaultAt(s.faults, sel[k]) != Commits
    ensures Run(p, sel, s).aborted && Run(p, sel, s).db.positions[sel[j]] == p.db.positions[sel[j]]
  {
    var pre := sel[..k + 1];
    assert pre[k] == sel[k];
    GlobalSweepAbortsIff(p, pre, s);
    AbortedStays(p, sel, s, k + 1);
    assert sel[j] !in pre by {
      forall m | 0 <= m < |pre| ensures pre[m] < sel[j] { assert pre[m] == sel[m]; }
    }
    RunRows(p, pre, s, sel[j]);
  }

  /** Exactly-once: after a sweep with no failures, a second sweep at the
      same time and with the same scope finds nothing to settle. */
  lemma SweepLeavesNothingDue(p: Pass, s: Sweep, owner: Option<nat>, symbol: Option<string>, now: int)
    requires var sel := Selection(p.db.positions, owner, symbol, now);
             Ready(p, sel, s) && NoFaults(s, sel) && !p.aborted && p.next <= |s.queue|
    ensures var sel := Selection(p.db.positions, owner, symbol, now);
            Selection(Run(p, sel, s).db.positions, owner, symbol, now) == []
  {
    var sel := Selection(p.db.positions, owner, symbol, now);
    var q := Run(p, sel, s);
    forall i | 0 <= i < |q.db.positions|
      ensures !Due(q.db.positions[i], owner, symbol, now)
    {
      if i in sel {
        var m :| 0 <= m < |sel| && sel[m] == i;
        RunOutcomes(p, sel, s, m);
      } else {
        RunRows(p, sel, s, i);
      }
    }
  }

  /** A sweep over one more selected id is one more transaction. */
  lemma RunSnoc(p: Pass, sel: seq<nat>, s: Sweep, i: nat)
    requires Ready(p, sel, s) && i < |sel|
    ensures Ready(p, sel[..i], s) && Ready(p, sel[..i + 1], s)
    ensures Run(p, sel[..i + 1], s) == Step(Run(p, sel[..i], s), sel[i], s)
  {
    assert sel[..i + 1][..i] == sel[..i];
  }

  /** A sweep over two runs of ids is the second run continuing from where
      the first stopped. */
  lemma {:induction false} RunAppend(p: Pass, a: seq<nat>, b: seq<nat>, s: Sweep)
    requires Ready(p, a + b, s)
    ensures Ready(p, a, s) && Ready(Run(p, a, s), b, s)
    ensures Run(p, a + b, s) == Run(Run(p, a, s), b, s)
    decreases |b|
  {
    assert forall k :: 0 <= k < |a| ==> a[k] == (a + b)[k];
    assert forall k :: 0 <= k < |b| ==> b[k] == (a + b)[|a| + k];
    if b == [] {
      assert a + b == a;
    } else {
      var init := b[..|b| - 1];
      assert (a + b)[..|a + b| - 1] == a + init;
      RunAppend(p, a, init, s);
    }
  }

  /** Queue entries name distinct controls, in id order. */
  predicate QueueIdsIncreasing(queue: seq<Control>) {
    forall j, k :: 0 <= j < k < |queue| ==> queue[j].id < queue[k].id
  }

  /** A sweep is its first m transactions, the m-th one, and the rest. */
  lemma RunSplit(p: Pass, sel: seq<nat>, s: Sweep, m: nat)
    requires Ready(p, sel, s) && m < |sel|
    ensures Ready(p, sel[..m], s)
    ensures var r1 := Step(Run(p, sel[..m], s), sel[m], s);
            && Run(p, sel[..m + 1], s) == r1
            && Ready(r1, sel[m + 1..], s)
            && Run(p, sel, s) == Run(r1, sel[m + 1..], s)
  {
    var pre, id, post := sel[..m], sel[m], sel[m + 1..];
    assert sel == (pre + [id]) + post;
    assert sel[..m + 1] == pre + [id];
    RunAppend(p, pre + [id], post, s);
    RunAppend(p, pre, [id], s);
    assert [id][..0] == [];
  }

  /** Under the per-user sweep a transaction that throws is skipped: its row
      ends as it was, and when it threw after claiming a queued control, the
      queue index has moved past that control, which stays unconsumed. */
  lemma RunSkipsFault(p: Pass, sel: seq<nat>, s: Sweep, m: nat)
    requires Ready(p, sel, s) && Increasing(sel) && s.driver == UserSweep && !p.aborted && p.next <= |s.queue|
    requires QueueIdsIncreasing(s.queue)
    requires forall k :: p.next <= k < |s.queue| ==> p.db.controls[s.queue[k].id].required
    requires m < |sel| && FaultAt(s.faults, sel[m]) != Commits
    ensures var q := Run(p, sel, s);
            var j := Run(p, sel[..m], s).next;
            && q.db.positions[sel[m]] == p.db.positions[sel[m]]
            && (FaultAt(s.faults, sel[m]) == FailsAfterClaim && j < |s.queue| ==>
                  Run(p, sel[..m + 1], s).next == j + 1 && q.db.controls[s.queue[j].id].required)
  {
    var pre, id, post := sel[..m], sel[m], sel[m + 1..];
    RunSplit(p, sel, s, m);
    var r := Run(p, pre, s);
    var r1 := Step(r, id, s);
    UserSweepNeverAborts(p, pre, s);
    assert id !in pre by {
      forall k | 0 <= k < |pre| ensures pre[k] < id { assert pre[k] == sel[k]; }
    }
    assert id !in post by {
      forall k | 0 <= k < |post| ensures post[k] > id { assert post[k] == sel[m + 1 + k]; }
    }
    RunUnselected(p, pre, s, id);
    RunUnselected(r1, post, s, id);
    if FaultAt(s.faults, id) == FailsAfterClaim && r.next < |s.queue| {
      var c := s.queue[r.next].id;
      forall j | p.next <= j < r.next ensures s.queue[j].id != c {
        assert s.queue[j].id < c;
      }
      RunControls(p, pre, s, c);
      forall j | r.next < j < |s.queue| ensures s.queue[j].id != c {
        assert c < s.queue[j].id;
      }
      RunControls(r1, post, s, c);
    }
  }

  /** The body of one position's `$transaction`: read the next queued
      control (consuming it) or apply the price rule, credit the owner's
      wallet (creating it if needed), close the row. `summary` is None when
      the transaction threw; its writes are then rolled back, but a queue
      index already advanced stays advanced. */
  method Transact(db: Database, id: nat, s: Sweep, sessionIndex: nat, ghost settled: seq<Summary>)
      returns (next: nat, summary: Option<Summary>)
    requires id < |db.positions| && QueueFits(s.queue, |db.controls|)
    modifies db
    ensures Step(Pass(old(db.Contract()), sessionIndex, settled, false), id, s)
         == Pass(db.Contract(), next, if summary.Some? then settled + [summary.value] else settled,
                 summary.None? && s.driver == GlobalSweep)
    ensures db.users == old(db.users) && db.codes == old(db.codes)
  {
    next := sessionIndex;
    var fault := FaultAt(s.faults, id);
    if fault == FailsBeforeClaim {
      return next, None;
    }
    var position := db.positions[id];
    var outcome;
    if next < |s.queue| {
      var control := s.queue[next];
      next := next + 1;
      outcome := control.final;
      if fault == FailsAfterClaim {
        return next, None;
      }
      db.controls := db.controls[control.id := db.controls[control.id].(required := false)];
    } else {
      outcome := PriceOutcome(position.side, position.entryPrice, s.price);
      if fault == FailsAfterClaim {
        return next, None;
      }
    }
    var pay := Settle(s.driver, position.amount, position.profitability, outcome);
    var wallet := WalletOrNew(db.wallets, position.userId);
    db.wallets := db.wallets[position.userId := wallet.(available := wallet.available + pay.credit)];
    var updated := Close(position, s.driver, s.price, s.now, outcome);
    db.positions := db.positions[id := updated];
    summary := Some(Summarize(updated));
  }
}
