# app-trader contract engine, modelled in Dafny

This project models the binary-contract core of the app-trader backend and
the pieces of account management around it:

- **opening a contract** (`POST /api/contract/position`): request validation,
  the one-OPEN-position-per-user rule, and the transaction that debits the
  stake and inserts the row;
- **settlement**, shared by two request handlers:
  - the global sweep (`POST`/`GET /api/contract/settle`) and the per-user
    sweep (`POST /api/contract/settle-user`) both select expired OPEN
    positions, read the queue of administrator "session controls" once, and
    settle each position in its own transaction;
  - each transaction takes the next queued forced outcome (consuming it) or
    falls back to the price rule, computes profit, the 1% fee and the wallet
    credit, and closes the row;
  - the two handlers differ in the credit on a WIN (half the stake or the
    whole stake, plus net profit) and in error handling (the first failing
    transaction ends the global sweep with a 500; the per-user sweep skips
    it and goes on);
- **the client hook `usePositionSettler`**: its tick (re-entry guard, settle
  call, listing sorted newest first, the walk that shows one result per tick
  or schedules a timer for a position that closed before its nominal
  duration), its timer callback and its cleanup, as a class over the hook's
  refs;
- **registration** (`POST /api/auth/register`): fields, then the code, then
  the e-mail are checked in that order; a UID retry loop makes at most ten
  attempts; user and wallet are inserted together;
- **verification codes** (`POST /api/auth/send-code`): a 60-second cooldown
  per address, codes that live ten minutes, and four-digit codes;
- **`generateUid`**: six capital letters followed by four digits.

Each request handler is a `method` over the `Store.Database` class. It is
proved equal to a pure function of the tables before the request
(`OpenPosition`, `SettleUser`, `SettleAll`, `SettleByQuery`, `Register`,
`SendCode`). The properties are stated as lemmas about those functions.

The settlement loops are proved against `Settlement.Run`: one `Step` (a
transaction) per selected position, in table order. Randomness, the clock,
the price and the outcome of each database transaction are parameters:
- index oracles for `Math.random`;
- `now` for `Date.now()`;
- a `faults` map saying which transactions throw, and when.

Money is `real`, standing for Prisma's exact `Decimal`. Times are integer
milliseconds.

Behaviour the proofs make explicit:
- Under the global sweep a WIN returns half the stake. So a WIN pays less
  than a LOSS whenever the profitability is below 25%
  (`Payout.GlobalWinBelowLossIff`). The per-user sweep returns the whole
  stake, so there the stake debited at open plus the credit at settlement
  nets exactly the recorded profit (`Payout.UserSweepNetsActualProfit`).
- A LOSS returns the stake minus profit and fee, so it costs profit plus
  fee. Above a profitability of 100/1.01 % the credit is negative
  (`Payout.LossCreditNegativeAtFullRate`).
- The fee the result modal shows (0.1% of the stake) equals the fee the
  server takes (1% of the profit) only at a profitability of 10%
  (`ResultNotifier.DisplayedFeeMatchesServerFeeIff`).
- Registration announces a 1000 USDT welcome bonus, but the wallet it
  creates holds 0 (`RegisterApi.RegisterCreates`).
- A verification code is not consumed by registering. The 409 for a
  registered address is given only to a caller holding a live code
  (`RegisterApi.CodeCheckedFirst`).
- A code is stored even when mailing it fails, and stays usable
  (`SendCodeApi.StoredCodeRegisters`).
- `GET /api/contract/settle?currentPrice=0` parses the price and is then
  refused by POST as a missing price (`SettleGlobalApi.QueryDelegates`).

## Model

| member | source | states |
|---|---|---|
| Text.NatToString | src/pages/api/auth/send-code.ts:5-7 | the decimal text of a natural number is non-empty, all digits, and has no leading zero |
| Text.NatToStringRoundTrip | src/pages/api/auth/send-code.ts:5-7 | reading the digits of `n.toString()` back gives `n` |
| Text.FourDigitLength | src/pages/api/auth/send-code.ts:5-7 | every number from 1000 to 9999 is written with exactly four characters |
| Text.DigitRun | src/pages/api/contract/settle.ts:205 | the digit prefix `parseFloat` reads is all digits and maximal |
| Text.ParseFloat | src/pages/api/contract/settle.ts:205-206 | `parseFloat` yields a number only for a text containing a digit; otherwise NaN, which GET refuses |
| Text.DigitRunAll | src/pages/api/contract/settle.ts:205 | a text of digits only is read whole |
| Text.NatParseRoundTrip | src/pages/api/contract/settle.ts:205 | `parseFloat(String(n))` gives back `n` |
| Store.Credit | src/pages/api/contract/settle-user.ts:126-154 | crediting creates the wallet if absent, raises its `available` by exactly the amount and leaves every other wallet as it was |
| Store.Database.constructor | src/server/prisma.ts:1-34 | a fresh database has empty tables and satisfies the table invariants |
| Payout.PriceOutcome | src/pages/api/contract/settle-user.ts:107-112 | BUY_UP wins exactly on a strict rise and BUY_DOWN exactly on a strict fall; an unchanged price is a LOSS for both |
| Payout.OneSideWinsUnlessTie | src/pages/api/contract/settle.ts:96-102 | exactly one side wins if and only if the price moved |
| Payout.Settle | src/pages/api/contract/settle.ts:104-136 | profit before fee is amount × rate / 100 with a null rate as 0; the fee is 1% of it; a WIN records 99% of the profit and a LOSS loses 101%; the credit is the returned stake plus the recorded profit |
| Payout.ProfitIndependentOfDriver | src/pages/api/contract/settle-user.ts:114-124 | both handlers record the same profit for the same position and outcome |
| Payout.UserSweepNetsActualProfit | src/pages/api/contract/settle-user.ts:142-146 | per-user sweep: the stake debited at open plus the settlement credit change `available` by exactly the recorded profit |
| Payout.GlobalWinBelowLossIff | src/pages/api/contract/settle.ts:132-136 | global sweep: a WIN credits less than a LOSS if and only if the profitability is below 25% |
| Payout.LossCreditNonNegative | src/pages/api/contract/settle.ts:136 | a LOSS credit is non-negative when the rate is between 0 and 100/1.01 % |
| Payout.LossCreditNegativeAtFullRate | src/pages/api/contract/settle-user.ts:146 | at 100% profitability a LOSS credit is negative: stake 100 is credited -1 |
| Payout.WorkedExamples | src/pages/api/contract/settle-user.ts:114-146 | stake 100 at 20%: WIN records 19.8 and credits 119.8 (69.8 under the global sweep); LOSS records -20.2 and credits 79.8 |
| Settlement.SelectFrom | src/pages/api/contract/settle-user.ts:49-60 | the ids picked from a suffix are increasing, all due, and include every due row of the suffix |
| Settlement.Selection | src/pages/api/contract/settle-user.ts:49-60 | `findMany` returns, in table order, exactly the OPEN rows expired by `now`, of the user when one is given, and of the symbol when a non-empty one is given |
| Settlement.PendingFrom | src/pages/api/contract/settle.ts:72-76 | the controls read from a suffix are stored rows with `required` set, in id order, and include every such row |
| Settlement.Pending | src/pages/api/contract/settle.ts:72-77 | the session queue holds every unconsumed control, each once, in insertion order |
| Settlement.QueueOldestFirst | src/pages/api/contract/settle-user.ts:82-86 | with controls stored in creation order, the queue is ordered by `createdAt` ascending |
| Settlement.Commit | src/pages/api/contract/settle-user.ts:92-177 | a committed transaction closes exactly its row with the decided outcome and the sweep's price and time, credits its owner with that settlement's credit, consumes the claimed control if the queue had one, advances the queue index, and reports the closed row |
| Settlement.Step | src/pages/api/contract/settle-user.ts:90-181 | a transaction leaves its row as it was (it threw) or closes it; a throw leaves every table and the report as they were, ends the global sweep and not the per-user one, and advances the queue index if and only if it came after the control was claimed; a commit closes the row with the next queued outcome or the price outcome |
| Settlement.StepFrame | src/pages/api/contract/settle-user.ts:92-177 | a transaction writes no other row, no other user's balance, and changes controls only by consuming them |
| Settlement.Run | src/pages/api/contract/settle-user.ts:89-182 | a sweep keeps the table sizes, moves the queue index forward within the queue, and only appends to the settled list |
| Settlement.RunAppend | src/pages/api/contract/settle-user.ts:90 | a sweep over two lists of positions is the sweep over the first followed by the sweep over the second |
| Settlement.RunSplit | src/pages/api/contract/settle-user.ts:90 | a sweep splits at any selected position into the prefix, that position's transaction, and the rest |
| Settlement.RunSkipsFault | src/pages/api/contract/settle-user.ts:91-106 | in the per-user sweep a throwing transaction leaves its row as the sweep found it; one that threw after claiming a control moves the index past it while that control stays required |
| Settlement.RunRows | src/pages/api/contract/settle.ts:79-160 | an unselected row is untouched; a selected row is untouched or closed by this sweep |
| Settlement.RunKeepsAtMostOneOpen | src/pages/api/contract/position.ts:81-99 | a sweep never creates a second OPEN position for a user |
| Settlement.RunControls | src/pages/api/contract/settle.ts:86-95 | a control changes only by being consumed, and only if the queue index passed over it |
| Settlement.RunConsumes | src/pages/api/contract/settle-user.ts:98-106 | without failing transactions, every control the queue index passed over ends up consumed |
| Settlement.RunNoFaults | src/pages/api/contract/settle-user.ts:90-182 | without failing transactions, every selected position is settled and the queue index advances once per position until the queue is used up |
| Settlement.RunOutcomes | src/pages/api/contract/settle-user.ts:97-112 | without failing transactions, the m-th selected position is CLOSED with the m-th queued forced outcome, or with the price outcome once the queue is used up |
| Settlement.DecideMin | src/pages/api/contract/settle-user.ts:98 | an index past the end of the queue decides like the end of the queue: the price rule |
| Settlement.RunUnselected | src/pages/api/contract/settle.ts:79-160 | a row the sweep did not select is left as it was |
| Settlement.RunSummary | src/pages/api/contract/settle-user.ts:168-174 | every summary a sweep reports is a selected row, now CLOSED, with the reported result and profit |
| Settlement.RunKeepsTables | src/pages/api/contract/settle-user.ts:157-166 | a sweep keeps row ids equal to their places and controls in creation order |
| Settlement.CreditedOnlyOwners | src/pages/api/contract/settle-user.ts:127-154 | a sweep credits nothing to a user who owns none of the selected positions |
| Settlement.StepCredits | src/pages/api/contract/settle-user.ts:127-154 | a transaction credits its position's owner with that position's settlement credit, and nobody else |
| Settlement.RunCredits | src/pages/api/contract/settle.ts:116-144 | money conservation: every wallet ends with what it had plus the credits of exactly the selected positions of its owner that the sweep closed |
| Settlement.AbortedStays | src/pages/api/contract/settle.ts:80-81 | once an exception has ended the loop, the remaining positions change nothing |
| Settlement.UserSweepNeverAborts | src/pages/api/contract/settle-user.ts:178-181 | the per-user loop catches every failure and goes on |
| Settlement.GlobalSweepAbortsIff | src/pages/api/contract/settle.ts:80-81 | the global loop ends early if and only if one of its transactions throws |
| Settlement.GlobalSweepStopsAtFault | src/pages/api/contract/settle.ts:173-181 | after a failing transaction of the global sweep, the positions selected after it stay as they were |
| Settlement.SweepLeavesNothingDue | src/pages/api/contract/settle-user.ts:49-60 | exactly once: after a sweep with no failure, a second sweep at the same time with the same scope selects nothing |
| Settlement.RunSnoc | src/pages/api/contract/settle-user.ts:90 | a sweep over one more selected position is one more transaction |
| Settlement.Transact | src/pages/api/contract/settle-user.ts:91-177 | the body of one position's transaction, with its queue index and rollback, is exactly one `Step` |
| SettleGlobalApi.SettleAll | src/pages/api/contract/settle.ts:31-172 | a falsy price, and only that, is a 400; otherwise every expired position is swept; 200 with the count, or 500 when a transaction threw |
| SettleGlobalApi.SettleAllPost | src/pages/api/contract/settle.ts:11-183 | the POST handler leaves the tables and answers as `SettleAll`, and keeps the table invariants |
| SettleGlobalApi.SweepUntilFault | src/pages/api/contract/settle.ts:68-160 | the loop with no per-position catch equals `Run` under the global sweep, and reports whether it was cut short |
| SettleGlobalApi.SettleByQuery | src/pages/api/contract/settle.ts:189-226 | GET answers the missing-parameters 400 if and only if a parameter is missing or empty, the "invalid price" 400 if and only if the price parses to NaN, and a parsed price answers exactly as POST with that price |
| SettleGlobalApi.SettleAllGet | src/pages/api/contract/settle.ts:189-226 | the GET handler leaves the tables and answers as `SettleByQuery` |
| SettleGlobalApi.SettleAllCredits | src/pages/api/contract/settle.ts:132-144 | every wallet gains exactly its owner's credits for the positions this request closed, including those closed before a failure |
| SettleGlobalApi.SettleAllStopsAtFault | src/pages/api/contract/settle.ts:173-181 | a throwing transaction makes the answer a 500, and the positions after it stay as they were |
| SettleGlobalApi.SettleAllNoFaults | src/pages/api/contract/settle.ts:54-172 | with no failing transaction the count is the number of expired positions, and none is left due |
| SettleGlobalApi.QueryDelegates | src/pages/api/contract/settle.ts:205-224 | GET with a decimal price behaves as POST with that price, and price 0 is refused as missing |
| SettleUserApi.SettleUser | src/pages/api/contract/settle-user.ts:36-195 | the missing-price 400 if and only if the price is falsy; with a price, "settled: 0" if and only if nothing of the caller's in scope is expired; both leave the tables; the reported count is the number of reported positions |
| SettleUserApi.SettleUserSkipsFault | src/pages/api/contract/settle-user.ts:178-181 | a position whose transaction throws is left as the request found it, whatever the other transactions did |
| SettleUserApi.SettleUserLosesClaim | src/pages/api/contract/settle-user.ts:98-106 | when the m-th transaction throws after claiming the m-th queued control, that control is still required after the request, although the index moved past it |
| SettleUserApi.ClaimedControlsRequired | src/pages/api/contract/settle-user.ts:82-86 | the session queue names controls in increasing id order, each still required when the sweep starts |
| SettleUserApi.SettleForUser | src/pages/api/contract/settle-user.ts:10-206 | the handler leaves the tables and answers as `SettleUser`, and keeps the table invariants |
| SettleUserApi.SweepEach | src/pages/api/contract/settle-user.ts:76-182 | the loop with a catch per position equals `Run` under the per-user sweep |
| SettleUserApi.SettleUserCredits | src/pages/api/contract/settle-user.ts:142-154 | the caller's wallet gains exactly the credits of the caller's positions this request closed |
| SettleUserApi.SettleUserLeavesOthers | src/pages/api/contract/settle-user.ts:49-53 | another user's wallet and positions are untouched |
| SettleUserApi.SettleUserKeepsOneOpen | src/pages/api/contract/position.ts:81-99 | the per-user sweep keeps the one-OPEN-position rule |
| SettleUserApi.SettleUserReport | src/pages/api/contract/settle-user.ts:168-189 | every reported position is the caller's, now CLOSED with the reported result and profit; with no failure, every expired position is reported and none is left due |
| PositionApi.Validate | src/pages/api/contract/position.ts:48-79 | the request passes if and only if no field is falsy, the side is BUY_UP or BUY_DOWN, and the amount is positive; otherwise a 400 |
| PositionApi.OpenPosition | src/pages/api/contract/position.ts:48-162 | every refusal leaves the tables as they were; a position is opened only for a valid request from a user with no OPEN position |
| PositionApi.OpenOutcomes | src/pages/api/contract/position.ts:48-162 | an invalid request gets its validation error; a valid one gets the 400 "already has an open position" if and only if the user has an OPEN position, the 400 "insufficient balance" if and only if not and the available balance is below the amount, and 200 with the new position if and only if neither |
| PositionApi.OpenContract | src/pages/api/contract/position.ts:11-232 | the handler leaves the tables and answers as `OpenPosition`, and keeps the table invariants |
| PositionApi.FindOpen | src/pages/api/contract/position.ts:82-87 | the lookup finds an OPEN position of the user if and only if one exists |
| PositionApi.OpenKeepsOneOpen | src/pages/api/contract/position.ts:81-99 | opening never gives a user a second OPEN position |
| PositionApi.OpenDebitsStake | src/pages/api/contract/position.ts:125-138 | an opened position debits exactly the stake from a wallet holding at least that much; no other wallet changes |
| PositionApi.OpenedRow | src/pages/api/contract/position.ts:140-159 | the new row is appended with the next id, OPEN, of the caller, with the request's symbol, side, amount, duration and profitability, the current price as entry price, the expected profit and payout of that rate, created now and due exactly `duration` seconds later, with no settlement fields |
| PositionApi.AmountChecks | src/pages/api/contract/position.ts:49-79 | amount 0 is refused as missing, a negative amount as non-positive, and a positive one passes |
| PositionApi.NoWalletNoPosition | src/pages/api/contract/position.ts:114-130 | a user without a wallet cannot open a position, and the wallet created on the way is rolled back |
| PositionApi.ExpectedProfitMatchesSettlement | src/pages/api/contract/position.ts:101-105 | the expected profit shown at open is the settlement's profit before fee; a WIN records 99% of it and a LOSS loses 101% |
| ResultNotifier.ModalShowsSettlement | src/hooks/usePositionSettler.ts:9-26 | the modal built for a row closed by a sweep shows its id, symbol, side and stake, the sweep's price as exit price, the decided outcome, the settlement's actual profit and the close time |
| ResultNotifier.DisplayedFeeMatchesServerFeeIff | src/hooks/usePositionSettler.ts:10 | the displayed fee equals the fee the server takes if and only if the profitability is 10% |
| ResultNotifier.NewestFirstPairwise | src/hooks/usePositionSettler.ts:80-86 | a list sorted newest first is ordered by close time at every pair |
| ResultNotifier.InsertNewest | src/hooks/usePositionSettler.ts:80-86 | inserting into a list sorted newest first keeps it sorted and adds exactly the element |
| ResultNotifier.SortNewestFirst | src/hooks/usePositionSettler.ts:80-86 | the listing is reordered by `closedAt` descending, with a null time as 0, as a permutation |
| ResultNotifier.ScanFrom | src/hooks/usePositionSettler.ts:88-127 | the walk stops, if at all, at an index of the list |
| ResultNotifier.ScanRevealsFirst | src/hooks/usePositionSettler.ts:100-113 | a tick shows the first position that is unshown, whose duration is over, and that closed within 90 s; if there is none it shows nothing |
| ResultNotifier.ScanKeepsTimers | src/hooks/usePositionSettler.ts:103-110 | a tick keeps every pending timer except the shown position's, which it cancels |
| ResultNotifier.ScanSchedulesOnlyDeferrable | src/hooks/usePositionSettler.ts:116-126 | every timer a tick adds is for an unshown position of the list that closed within 90 s before its duration ended, and fires when the duration ends |
| ResultNotifier.ScanDefersAll | src/hooks/usePositionSettler.ts:116-126 | every such position the walk passes before it stops has a timer afterwards |
| ResultNotifier.StaleIgnored | src/hooks/usePositionSettler.ts:98 | a position that closed more than 90 s ago is neither shown nor scheduled |
| ResultNotifier.RevealKeepsInvariants | src/hooks/usePositionSettler.ts:103-111 | showing a position keeps every modal shown once, no earlier than its duration's end, with no timer left for a shown position |
| ResultNotifier.Walk | src/hooks/usePositionSettler.ts:88-127 | the loop over the sorted list computes the timers and the pick `ScanFrom` describes, and keeps the timer invariant |
| ResultNotifier.PositionSettler.constructor | src/hooks/usePositionSettler.ts:37-41 | the refs start not checking, first load, nothing shown and no timers |
| ResultNotifier.PositionSettler.BeginTick | src/hooks/usePositionSettler.ts:46-66 | a tick runs only when none is running, and calls settle-user only when a positive price is known |
| ResultNotifier.PositionSettler.EndTick | src/hooks/usePositionSettler.ts:68-134 | a failed request changes nothing; an empty or unsuccessful listing only ends the first load; otherwise the tick applies the walk's timers and shows its pick; the re-entry flag is always cleared |
| ResultNotifier.PositionSettler.ShowResult | src/hooks/usePositionSettler.ts:104-111 | showing marks the position shown and appends exactly its modal |
| ResultNotifier.PositionSettler.FireTimer | src/hooks/usePositionSettler.ts:118-124 | a due timer shows its captured position unless it was already shown, and is forgotten |
| ResultNotifier.PositionSettler.Teardown | src/hooks/usePositionSettler.ts:141-148 | cleanup clears every pending timer and nothing else |
| Uid.Spell | src/utils/generateUid.ts:10-19 | each character is the alphabet's character at the drawn index |
| Uid.GenerateUid | src/utils/generateUid.ts:5-22 | the two loops build the six-letter part then the four-digit part of the draw |
| Uid.UidWellFormed | src/utils/generateUid.ts:1-4 | every generated UID is six capital letters followed by four digits |
| Uid.UidInjective | src/utils/generateUid.ts:10-21 | different draws give different UIDs |
| Uid.EveryUidReachable | src/utils/generateUid.ts:1-4 | every string of that format can be generated |
| RegisterApi.FirstFreeAttempt | src/pages/api/auth/register.ts:74-85 | the loop stops at the first of the ten attempts whose UID is free, and fails if and only if all ten are taken |
| RegisterApi.Register | src/pages/api/auth/register.ts:20-130 | a missing field, and only that, is the missing-fields 400; every outcome except 201 leaves the tables as they were |
| RegisterApi.RegisterOutcomes | src/pages/api/auth/register.ts:46-118 | with every field present: the invalid-code 400 if and only if no live code matches; the failed-transaction 500 if and only if the code is live, the e-mail new, one of the ten drawn UIDs free and the new id already owns a wallet; 201 if and only if the same holds but the new id has no wallet |
| RegisterApi.RegisterKeepsWalletsOfUsers | src/pages/api/auth/register.ts:108-115 | while every wallet belongs to an account, registration never meets an existing wallet, so the transaction never fails, and keeps that invariant |
| RegisterApi.FindUnusedUid | src/pages/api/auth/register.ts:68-95 | the retry loop returns the UID the first free attempt draws, or nothing after ten taken ones |
| RegisterApi.RegisterAccount | src/pages/api/auth/register.ts:7-141 | the handler leaves the account tables and answers as `Register`, and keeps the table invariants |
| RegisterApi.EnrollAccount | src/pages/api/auth/register.ts:97-118 | the transaction inserts the user and its wallet together, or neither |
| RegisterApi.CodeCheckedFirst | src/pages/api/auth/register.ts:30-64 | without a live code the answer is 400 whether or not the e-mail is registered; 409 is given if and only if the code is live and the e-mail is taken |
| RegisterApi.UidExhaustedIff | src/pages/api/auth/register.ts:87-95 | after the checks pass, the answer is the UID 500 if and only if all ten drawn UIDs are taken |
| RegisterApi.RegisterCreates | src/pages/api/auth/register.ts:97-124 | a 201 means a live code and a new e-mail; the user is appended with the next id, the given hash and a free, well-formed UID; the new wallet holds 0; codes are untouched |
| RegisterApi.RegisterKeepsAccountsDistinct | src/pages/api/auth/register.ts:56-95 | registration keeps e-mails and UIDs unique |
| SendCodeApi.Generate4DigitCode | src/pages/api/auth/send-code.ts:5-7 | the code is four digits whose value is 1000 plus the draw |
| SendCodeApi.LatestCreated | src/pages/api/auth/send-code.ts:47-51 | the newest `createdAt` among the address's codes, or nothing if and only if it has none |
| SendCodeApi.SendCode | src/pages/api/auth/send-code.ts:23-84 | a missing e-mail, and only that, is a 400; a 400 or a 429 stores nothing |
| SendCodeApi.SendCodePost | src/pages/api/auth/send-code.ts:9-108 | the handler leaves the code table and answers as `SendCode`, and writes no other table |
| SendCodeApi.CooldownIff | src/pages/api/auth/send-code.ts:53-56 | the wait left is positive if and only if less than 60000 ms have passed, and is then between 1 and 60 s |
| SendCodeApi.SendCodeOutcome | src/pages/api/auth/send-code.ts:47-84 | 429 if and only if the address has a code younger than a minute, and then nothing is stored; otherwise one four-digit code expiring in ten minutes is appended, and the answer is 200 exactly when it was mailed |
| SendCodeApi.CooldownHolds | src/pages/api/auth/send-code.ts:53-68 | after a code is stored, a request for the same address within 60 s is a 429 |
| SendCodeApi.StoredCodeRegisters | src/pages/api/auth/send-code.ts:70-82 | a stored code satisfies registration's code check until it expires, even when mailing it failed |

## Left out

- Authentication (`requireAuth`), JSON parsing and its 400, response headers and bodies beyond the answer kind: the caller's id and the parsed fields are parameters.
- The 500 a throwing request outside the modelled transactions gives (a database outage at a `findMany`, `findFirst` or `findUnique`), and send-code's 503/500 split by error code. Settlement transactions that throw are modelled by the `faults` parameter.
- Concurrency between requests: the OPEN-position check in position.ts runs outside the transaction, so two concurrent requests can both pass it. Each handler here runs alone.
- The socket.io notification after opening a position (fire and forget; it changes no table).
- `bcrypt.hash`: the hash is a parameter of registration.
- `sendVerificationCodeEmail`: whether delivery succeeded is a boolean parameter. Its SMTP configuration is not part of this model.
- The check in send-code that the `verificationCode` model exists (a deployment fault, not behaviour of the handler).
- `Math.random`: replaced by index oracles whose ranges are preconditions (`DrawInRange`, `draw < 9000`). `Date.now()` and `new Date()` are one `now` per request.
- PositionApi.OpenPosition: `expiresAt` is `now + duration × 1000` with an integer duration; the fractional seconds `setSeconds` would truncate are not modelled.
- PositionApi.OpenPosition: a transaction that throws for any reason other than the insufficient balance answers 500; the model has no fault input for it, so that path is not modelled.
- RegisterApi.Register: a transaction that throws for any reason other than the wallet clash (a failed user insert, a database outage) answers 500; that path is not modelled.
- SettleGlobalApi.QueryDelegates: the query price is read as an exact real. JavaScript reads it as a double, so above 2^53 `parseFloat` rounds, and past about 1.8e308 it becomes `Infinity`, which `JSON.stringify` forwards as `null` and POST refuses with the missing-price 400; neither is modelled.
- Text.NatParseRoundTrip: exact for every natural because `ParseFloat` yields an exact real; double rounding above 2^53 and overflow to `Infinity` are not modelled.
- Prisma `Decimal` precision and rounding: money is exact `real`, so the fee and profit relations hold exactly.
- RegisterApi.Register: the 500 when the new account's id already owns a wallet row is kept, because settlement creates a wallet for any position owner and nothing here ties wallet keys to accounts; `RegisterKeepsWalletsOfUsers` shows it cannot happen while every wallet belongs to an account.
- ResultNotifier.ModalShowsSettlement: assumes the positions listing returns a closed row's fields as stored; that endpoint is not part of this model.
- SettleUserApi.SweepEach: a transaction whose callback has already pushed its summary but whose commit then fails is modelled as not pushing it. The source would report a rolled-back position.
- Settlement.Selection: `findMany` has no `orderBy`, so its order is the database's. The model takes table (id) order.
- Settlement.Pending: controls sharing a `createdAt` are taken in id order.
- ResultNotifier.SortNewestFirst: JavaScript's sort is stable and keeps ties in listing order. The insertion sort here is proved sorted and a permutation, but not stable.
- Text.ParseFloat: exponents, `Infinity`, leading whitespace and hexadecimal forms of `parseFloat` are not modelled. Only sign, digits and a decimal fraction are.
- The hook's real timers, `setInterval` every 2 s, `fetch` and the 300 ms wait on first load: a tick is split into `BeginTick` and `EndTick` around the two requests, and the timer callback is `FireTimer`.
- The positions-listing endpoint the hook calls: its response is the `Listing` parameter.
- `src/pages/api/auth/uid.ts` and the remaining pages and components are not part of this model.
