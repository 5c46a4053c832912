/** The client-side hook that settles the user's expired positions and shows
    each result once. Every tick (re-entry is refused while one runs) asks
    the server to settle when a price is known, lists recent CLOSED
    positions newest first, and walks them: a result already shown is
    skipped, a result whose nominal duration is over and that closed in the
    last 90 s is shown (one per tick), and a result that closed early is
    scheduled for the end of its duration. */
module ResultNotifier {
  import opened Common
  import opened Store
  import opened Payout
  import opened Settlement

  /** A window of 90 s within which a closed position counts as "just closed". */
  const RecentlyClosedMs: int := 90000

  /** A CLOSED position as the positions listing returns it; the server may
      leave any of the optional fields null. Times are in milliseconds. */
  datatype PositionView = PositionView(
    id: nat,
    symbol: string,
    side: Side,
    amount: real,
    entryPrice: real,
    exitPrice: Option<real>,
    duration: Option<int>,
    profitability: Option<real>,
    actualProfit: Option<real>,
    result: Option<Outcome>,
    createdAt: Option<int>,
    closedAt: Option<int>)

  /** What the result modal displays. */
  datatype OrderResult = OrderResult(
    positionId: nat,
    symbol: string,
    side: Side,
    amount: real,
    entryPrice: real,
    exitPrice: real,
    duration: Option<int>,
    profitability: Option<real>,
    actualProfit: real,
    result: Outcome,
    handlingFee: real,
    createdAt: Option<int>,
    closedAt: Option<int>)

  /** The fee shown in the modal: 0.1% of the stake. */
  function HandlingFee(amount: real): real {
    amount * 0.1 / 100.0
  }

  /** The modal contents for a listed position, with the hook's defaults
      for null fields. */
  function BuildResult(p: PositionView): (r: OrderResult)
    ensures r.positionId == p.id && r.amount == p.amount && r.handlingFee * 1000.0 == p.amount
    ensures r.exitPrice == (if p.exitPrice.Some? then p.exitPrice.value else p.entryPrice)
    ensures r.result == Win <==> p.result == Some(Win)
    ensures r.actualProfit == (if p.actualProfit.Some? then p.actualProfit.value else 0.0)
    ensures r.closedAt == (if p.closedAt.Some? then p.closedAt else p.createdAt)
  {
    OrderResult(p.id, p.symbol, p.side, p.amount, p.entryPrice,
                if p.exitPrice.Some? then p.exitPrice.value else p.entryPrice,
                p.duration, p.profitability,
                if p.actualProfit.Some? then p.actualProfit.value else 0.0,
                if p.result.Some? then p.result.value else Loss,
                HandlingFee(p.amount),
                p.createdAt,
                if p.closedAt.Some? then p.closedAt else p.createdAt)
  }

  /** A settled row as the positions listing returns it: every field
      copied, none left null. */
  function ViewOf(p: Position): PositionView {
    PositionView(p.id, p.symbol, p.side, p.amount, p.entryPrice, p.exitPrice, Some(p.duration),
                 p.profitability, p.actualProfit, p.result, Some(p.createdAt), p.closedAt)
  }

  /** The modal for a position a sweep closed shows the outcome it was
      settled with, the profit it recorded, the sweep's price and time, and
      the stake. */
  lemma ModalShowsSettlement(p: Position, driver: Driver, price: real, now: int, outcome: Outcome)
    ensures var m := BuildResult(ViewOf(Close(p, driver, price, now, outcome)));
            && m.positionId == p.id && m.symbol == p.symbol && m.side == p.side && m.amount == p.amount
            && m.entryPrice == p.entryPrice && m.exitPrice == price
            && m.result == outcome
            && m.actualProfit == Settle(driver, p.amount, p.profitability, outcome).actualProfit
            && m.closedAt == Some(now) && m.createdAt == Some(p.createdAt)
  {
  }

  /** The modal's handling fee agrees with the 1% fee the server takes from
      profit only at a profitability of exactly 10%. */
  lemma {:induction false} DisplayedFeeMatchesServerFeeIff(amount: real, rate: real, driver: Driver, outcome: Outcome)
    requires amount > 0.0
    ensures HandlingFee(amount) == Settle(driver, amount, Some(rate), outcome).fee <==> rate == 10.0
  {
    var fee := Settle(driver, amount, Some(rate), outcome).fee;
    var shownFee := HandlingFee(amount);
    assert fee * 10000.0 == amount * rate;
    assert shownFee * 10000.0 == amount * 10.0;
    assert (shownFee - fee) * 10000.0 == amount * (10.0 - rate);
    PositiveFactor(amount, 10.0 - rate);
    PositiveFactor(amount, rate - 10.0);
  }

  /** Times the hook reads from a listed position; a null time counts as 0,
      a null or zero duration as 0 s. */
  function ClosedTime(p: PositionView): int {
    if p.closedAt.Some? then p.closedAt.value else 0
  }

  function CreatedTime(p: PositionView): int {
    if p.createdAt.Some? then p.createdAt.value else 0
  }

  function DurationSeconds(p: PositionView): int {
    if FalsyInt(p.duration) then 0 else p.duration.value
  }

  /** When the position's nominal duration ends. */
  function DurationEnd(p: PositionView): int {
    CreatedTime(p) + DurationSeconds(p) * 1000
  }

  predicate RecentlyClosed(p: PositionView, now: int) {
    ClosedTime(p) >= now - RecentlyClosedMs
  }

  /** Shown right away by a tick at `now`. */
  predicate Revealable(p: PositionView, shown: set<nat>, now: int) {
    p.id !in shown && DurationEnd(p) <= now && RecentlyClosed(p, now)
  }

  /** Deferred by a tick at `now` to the end of its duration. */
  predicate Deferrable(p: PositionView, shown: set<nat>, now: int) {
    p.id !in shown && now < DurationEnd(p) && RecentlyClosed(p, now)
  }

  /** Each element closed no earlier than the next one. */
  predicate NewestFirst(ps: seq<PositionView>) {
    forall i :: 0 < i < |ps| ==> ClosedTime(ps[i - 1]) >= ClosedTime(ps[i])
  }

  /** Adjacent order gives the order of every pair. */
  lemma {:induction false} NewestFirstPairwise(ps: seq<PositionView>, i: nat, j: nat)
    requires NewestFirst(ps) && i <= j < |ps|
    ensures ClosedTime(ps[i]) >= ClosedTime(ps[j])
    decreases j - i
  {
    if i < j {
      NewestFirstPairwise(ps, i + 1, j);
    }
  }

  /** Puts `p` before the first element that closed no later than it. */
  function InsertNewest(p: PositionView, ps: seq<PositionView>): (r: seq<PositionView>)
    requires NewestFirst(ps)
    ensures NewestFirst(r) && multiset(r) == multiset(ps) + multiset{p}
    ensures r[0] == p || r[0] == ps[0]
  {
    if ps == [] || ClosedTime(ps[0]) <= ClosedTime(p) then [p] + ps
    else
      var rest := InsertNewest(p, ps[1..]);
      assert multiset(ps) == multiset{ps[0]} + multiset(ps[1..]) by {
        assert ps == [ps[0]] + ps[1..];
      }
      assert ClosedTime(ps[0]) >= ClosedTime(rest[0]);
      [ps[0]] + rest
  }

  /** The listing sorted by `closedAt`, newest first. */
  function SortNewestFirst(ps: seq<PositionView>): (r: seq<PositionView>)
    ensures NewestFirst(r) && multiset(r) == multiset(ps)
  {
    if ps == [] then []
    else
      assert ps == [ps[0]] + ps[1..];
      InsertNewest(ps[0], SortNewestFirst(ps[1..]))
  }

  /** A scheduled display: the position captured by the timer callback and the
      time the timer fires. */
  datatype Timer = Timer(view: PositionView, due: int)

  /** The outcome of walking a tick's list: the pending timers afterwards and
      the index of the position revealed, if any. */
  datatype Scanned = Scanned(pending: map<nat, Timer>, pick: Option<nat>)

  /** Where the walk stopped. */
  function Stop(r: Scanned, n: nat): nat {
    if r.pick.Some? then r.pick.value else n
  }

  /** The walk of one tick over `ps[i..]`: skip shown ids, show the first
      revealable position and stop, schedule a timer for a deferrable one
      that has none. */
  function ScanFrom(shown: set<nat>, pending: map<nat, Timer>, ps: seq<PositionView>, i: nat, now: int): (r: Scanned)
    requires i <= |ps|
    ensures r.pick.Some? ==> i <= r.pick.value < |ps|
    decreases |ps| - i
  {
    if i == |ps| then Scanned(pending, None)
    else
      var p := ps[i];
      if p.id in shown then ScanFrom(shown, pending, ps, i + 1, now)
      else if Revealable(p, shown, now) then Scanned(pending - {p.id}, Some(i))
      else if Deferrable(p, shown, now) && p.id !in pending then
        ScanFrom(shown, pending[p.id := Timer(p, DurationEnd(p))], ps, i + 1, now)
      else ScanFrom(shown, pending, ps, i + 1, now)
  }

  /** A tick reveals the first revealable position of its list, and nothing
      if there is none. */
  lemma {:induction false} ScanRevealsFirst(shown: set<nat>, pending: map<nat, Timer>, ps: seq<PositionView>, i: nat, now: int)
    requires i <= |ps|
    ensures var r := ScanFrom(shown, pending, ps, i, now);
            && (r.pick.Some? ==> Revealable(ps[r.pick.value], shown, now))
            && (forall j :: i <= j < Stop(r, |ps|) ==> !Revealable(ps[j], shown, now))
    decreases |ps| - i
  {
    if i < |ps| {
      var p := ps[i];
      if p.id in shown {
        ScanRevealsFirst(shown, pending, ps, i + 1, now);
      } else if !Revealable(p, shown, now) {
        if Deferrable(p, shown, now) && p.id !in pending {
          ScanRevealsFirst(shown, pending[p.id := Timer(p, DurationEnd(p))], ps, i + 1, now);
        } else {
          ScanRevealsFirst(shown, pending, ps, i + 1, now);
        }
      }
    }
  }

  /** A tick keeps the timers already pending, except the one of the
      position it reveals, which it cancels. */
  lemma {:induction false} ScanKeepsTimers(shown: set<nat>, pending: map<nat, Timer>, ps: seq<PositionView>, i: nat, now: int)
    requires i <= |ps|
    ensures var r := ScanFrom(shown, pending, ps, i, now);
            && (r.pick.Some? ==> ps[r.pick.value].id !in r.pending)
            && (forall id :: id in pending && !(r.pick.Some? && ps[r.pick.value].id == id)
                  ==> id in r.pending && r.pending[id] == pending[id])
    decreases |ps| - i
  {
    if i < |ps| {
      var p := ps[i];
      if p.id in shown {
        ScanKeepsTimers(shown, pending, ps, i + 1, now);
      } else if !Revealable(p, shown, now) {
        if Deferrable(p, shown, now) && p.id !in pending {
          ScanKeepsTimers(shown, pending[p.id := Timer(p, DurationEnd(p))], ps, i + 1, now);
        } else {
          ScanKeepsTimers(shown, pending, ps, i + 1, now);
        }
      }
    }
  }

  /** Every timer a tick adds is for a deferrable position of its list and
      fires at the end of that position's duration. */
  lemma {:induction false} ScanSchedulesOnlyDeferrable(shown: set<nat>, pending: map<nat, Timer>, ps: seq<PositionView>, i: nat, now: int)
    requires i <= |ps|
    ensures var r := ScanFrom(shown, pending, ps, i, now);
            forall id :: id in r.pending && id !in pending ==>
              exists k :: i <= k < |ps| && ps[k].id == id && Deferrable(ps[k], shown, now)
                          && r.pending[id] == Timer(ps[k], DurationEnd(ps[k]))
    decreases |ps| - i
  {
    if i < |ps| {
      var p := ps[i];
      if p.id in shown {
        ScanSchedulesOnlyDeferrable(shown, pending, ps, i + 1, now);
      } else if !Revealable(p, shown, now) {
        if Deferrable(p, shown, now) && p.id !in pending {
          var next := pending[p.id := Timer(p, DurationEnd(p))];
          ScanSchedulesOnlyDeferrable(shown, next, ps, i + 1, now);
          ScanKeepsTimers(shown, next, ps, i + 1, now);
        } else {
          ScanSchedulesOnlyDeferrable(shown, pending, ps, i + 1, now);
        }
      }
    }
  }

  /** Every deferrable position the walk passes before it stops has a timer
      afterwards (unless it shares its id with the revealed one). */
  lemma {:induction false} ScanDefersAll(shown: set<nat>, pending: map<nat, Timer>, ps: seq<PositionView>, i: nat, now: int)
    requires i <= |ps|
    ensures var r := ScanFrom(shown, pending, ps, i, now);
            forall j :: i <= j < Stop(r, |ps|) && Deferrable(ps[j], shown, now)
              && !(r.pick.Some? && ps[r.pick.value].id == ps[j].id)
              ==> ps[j].id in r.pending
    decreases |ps| - i
  {
    if i < |ps| {
      var p := ps[i];
      if p.id in shown {
        ScanDefersAll(shown, pending, ps, i + 1, now);
      } else if !Revealable(p, shown, now) {
        var next := if Deferrable(p, shown, now) && p.id !in pending then pending[p.id := Timer(p, DurationEnd(p))] else pending;
        ScanDefersAll(shown, next, ps, i + 1, now);
        ScanKeepsTimers(shown, next, ps, i + 1, now);
      }
    }
  }

  /** Positions that closed more than 90 s ago are neither revealed nor
      given a timer by a tick. */
  lemma StaleIgnored(shown: set<nat>, pending: map<nat, Timer>, ps: seq<PositionView>, now: int, k: nat)
    requires k < |ps| && !RecentlyClosed(ps[k], now)
    ensures var r := ScanFrom(shown, pending, ps, 0, now);
            && r.pick != Some(k)
            && (ps[k].id in r.pending && ps[k].id !in pending ==>
                  exists j :: 0 <= j < |ps| && j != k && ps[j].id == ps[k].id && Deferrable(ps[j], shown, now))
  {
    ScanRevealsFirst(shown, pending, ps, 0, now);
    ScanSchedulesOnlyDeferrable(shown, pending, ps, 0, now);
  }

  /** A shown modal: the position, what the modal displayed, and the time it
      appeared. */
  datatype Reveal = Reveal(view: PositionView, modal: OrderResult, at: int)

  /** The response of the CLOSED-positions request: it threw, or it answered. */
  datatype Listing = Unreachable | Listed(success: bool, positions: seq<PositionView>)

  /** Every pending timer belongs to an unshown position, is keyed by its
      id and fires at the end of its duration. */
  predicate TimersOk(pending: map<nat, Timer>, shown: set<nat>) {
    forall id :: id in pending ==>
      id !in shown && pending[id].view.id == id && pending[id].due == DurationEnd(pending[id].view)
  }

  /** Every modal shown was for a distinct position, now in the shown set,
      displayed that position, and appeared no earlier than the end of its
      duration. */
  predicate RevealsOk(revealed: seq<Reveal>, shown: set<nat>) {
    && (forall k :: 0 <= k < |revealed| ==>
          && revealed[k].view.id in shown && DurationEnd(revealed[k].view) <= revealed[k].at
          && revealed[k].modal == BuildResult(revealed[k].view))
    && (forall j, k :: 0 <= j < k < |revealed| ==> revealed[j].view.id != revealed[k].view.id)
  }

  /** Showing an unshown position whose duration is over, and cancelling
      its timer, keeps both invariants. */
  lemma RevealKeepsInvariants(pending: map<nat, Timer>, shown: set<nat>, revealed: seq<Reveal>, p: PositionView, now: int)
    requires TimersOk(pending, shown) && RevealsOk(revealed, shown)
    requires p.id !in shown && DurationEnd(p) <= now
    ensures TimersOk(pending - {p.id}, shown + {p.id}) && RevealsOk(revealed + [Reveal(p, BuildResult(p), now)], shown + {p.id})
  {
    var after := revealed + [Reveal(p, BuildResult(p), now)];
    forall j, k | 0 <= j < k < |after| ensures after[j].view.id != after[k].view.id {
      if k == |revealed| {
        assert after[j] == revealed[j];
      }
    }
  }

  /** The loop of one tick over the sorted list: skip a shown id, show the
      first revealable position (cancelling its timer) and stop, schedule a
      timer for a deferrable one that has none. */
  method Walk(shown: set<nat>, pending0: map<nat, Timer>, closedPositions: seq<PositionView>, now: int)
      returns (pending: map<nat, Timer>, pick: Option<nat>)
    requires TimersOk(pending0, shown)
    ensures Scanned(pending, pick) == ScanFrom(shown, pending0, closedPositions, 0, now)
    ensures TimersOk(pending, shown)
  {
    pending, pick := pending0, None;
    var i := 0;
    while i < |closedPositions|
      invariant i <= |closedPositions| && TimersOk(pending, shown)
      invariant ScanFrom(shown, pending, closedPositions, i, now) == ScanFrom(shown, pending0, closedPositions, 0, now)
    {
      var p := closedPositions[i];
      var durationEndTime := DurationEnd(p);
      var isDurationExpired := durationEndTime <= now;
      var isRecentlyClosed := ClosedTime(p) >= now - RecentlyClosedMs;
      if p.id in shown {
        i := i + 1;
        continue;
      }
      if isDurationExpired && isRecentlyClosed {
        if p.id in pending {
          pending := pending - {p.id};
        }
        return pending, Some(i);
      }
      if !isDurationExpired && isRecentlyClosed && p.id !in pending {
        pending := pending[p.id := Timer(p, durationEndTime)];
      }
      i := i + 1;
    }
  }

  /** The hook's refs: the re-entry flag, the first-load flag, the shown set,
      the pending timers, and the modals shown so far (each displays
      `BuildResult` of its position). */
  class PositionSettler {
    var checking: bool
    var initialLoad: bool
    var shown: set<nat>
    var pending: map<nat, Timer>
    var revealed: seq<Reveal>

    ghost predicate Valid()
      reads this
    {
      TimersOk(pending, shown) && RevealsOk(revealed, shown)
    }

    constructor ()
      ensures Valid()
      ensures !checking && initialLoad && shown == {} && pending == map[] && revealed == []
    {
      checking, initialLoad, shown, pending, revealed := false, true, {}, map[], [];
    }

    /** The start of a tick: refuse re-entry, then decide whether to ask the
        server to settle. */
    method BeginTick(currentPrice: Option<real>) returns (run: bool, callSettle: bool)
      requires Valid()
      modifies this
      ensures Valid()
      ensures run == !old(checking) && checking
      ensures callSettle <==> run && currentPrice.Some? && currentPrice.value > 0.0
      ensures initialLoad == old(initialLoad) && shown == old(shown) && pending == old(pending) && revealed == old(revealed)
    {
      if checking {
        return false, false;
      }
      checking := true;
      run := true;
      callSettle := !FalsyNumber(currentPrice) && currentPrice.value > 0.0;
    }

    /** The rest of a tick, once the CLOSED positions are listed. */
    method EndTick(listing: Listing, now: int)
      requires Valid()
      modifies this
      ensures Valid() && !checking
      ensures listing.Unreachable? ==>
                initialLoad == old(initialLoad) && shown == old(shown) && pending == old(pending) && revealed == old(revealed)
      ensures listing.Listed? && (!listing.success || listing.positions == []) ==>
                !initialLoad && shown == old(shown) && pending == old(pending) && revealed == old(revealed)
      ensures listing.Listed? && listing.success && listing.positions != [] ==>
                var ps := SortNewestFirst(listing.positions);
                var r := ScanFrom(old(shown), old(pending), ps, 0, now);
                && !initialLoad
                && pending == r.pending
                && (r.pick.None? ==> shown == old(shown) && revealed == old(revealed))
                && (r.pick.Some? ==> shown == old(shown) + {ps[r.pick.value].id}
                                     && revealed == old(revealed) + [Reveal(ps[r.pick.value], BuildResult(ps[r.pick.value]), now)])
    {
      if listing.Unreachable? {
        checking := false;
        return;
      }
      if !listing.success || |listing.positions| == 0 {
        initialLoad := false;
        checking := false;
        return;
      }
      var closedPositions := SortNewestFirst(listing.positions);
      ghost var shown0, pending0, revealed0 := shown, pending, revealed;
      var timers, pick := Walk(shown, pending, closedPositions, now);
      pending := timers;
      if pick.Some? {
        ScanRevealsFirst(shown0, pending0, closedPositions, 0, now);
        ScanKeepsTimers(shown0, pending0, closedPositions, 0, now);
        ShowResult(closedPositions[pick.value], now);
        assert shown == shown0 + {closedPositions[pick.value].id};
        assert revealed == revealed0 + [Reveal(closedPositions[pick.value], BuildResult(closedPositions[pick.value]), now)];
      }
      initialLoad := false;
      checking := false;
    }

    /** `showResultModal`: mark the position shown and display it. */
    method ShowResult(p: PositionView, now: int)
      requires Valid() && p.id !in shown && p.id !in pending && DurationEnd(p) <= now
      modifies this
      ensures Valid()
      ensures shown == old(shown) + {p.id} && revealed == old(revealed) + [Reveal(p, BuildResult(p), now)]
      ensures pending == old(pending) && checking == old(checking) && initialLoad == old(initialLoad)
    {
      RevealKeepsInvariants(pending, shown, revealed, p, now);
      shown := shown + {p.id};
      revealed := revealed + [Reveal(p, BuildResult(p), now)];
    }

    /** The timer callback: show the captured position unless it was shown
        meanwhile, and forget the timer. A timer never fires before it is due. */
    method FireTimer(id: nat, now: int)
      requires Valid() && id in pending && pending[id].due <= now
      modifies this
      ensures Valid()
      ensures pending == old(pending) - {id}
      ensures shown == old(shown) + {id}
      ensures revealed == old(revealed) + [Reveal(old(pending)[id].view, BuildResult(old(pending)[id].view), now)]
      ensures checking == old(checking) && initialLoad == old(initialLoad)
    {
      var p := pending[id].view;
      pending := pending - {id};
      if id !in shown {
        ShowResult(p, now);
      }
    }

    /** The effect's cleanup: every pending timer is cleared. */
    method Teardown()
      requires Valid()
      modifies this
      ensures Valid() && pending == map[]
      ensures checking == old(checking) && initialLoad == old(initialLoad) && shown == old(shown) && revealed == old(revealed)
    {
      pending := map[];
    }
  }
}
