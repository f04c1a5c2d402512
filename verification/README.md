# Bangkee, modelled and proved in Dafny

Bangkee is a shared credit book: a shop records what a customer takes on credit and pays back, on a phone that
may have no signal, and a Go server on PostgreSQL keeps the book. This project models the parts of Bangkee whose
correctness is hardest to see from the code, and proves what they promise.

`dafny verify dfyconfig.toml` checks the whole project.

| files | what they model |
|---|---|
| `Replay`, `ReplayInvariant`, `ReplayTheorems`, `ReplayFinal`, `Drains`, `Device` | the offline queue: one device store, any number of drainers with snapshots, a network that loses, repeats and delays, and the server's book, as a step system; and the loop that drains the queue while others act, tied to that step system |
| `Book`, `BookRuns`, `Requests`, `Replays`, `LedgerView`, `Server` | recording, editing, crossing out and removing against the cached balance; idempotency keys and the race between look-up and insert; line items; running balances; the statement |
| `Elimination`, `Straighten`, `Quads`, `Collinear`, `Otsu`, `Patch`, `Spread`, `Screen`, `Thumbnail`, `Slivers`, `Scan`, `Pictures` | finding a lit phone screen in a photo, the projective map that straightens it, and the picture pulled through it, over the reals |
| `Calendar`, `Subscriptions` | calendar months, and the subscription's typed and stored months, derived status, reviews and stale cache writes |
| `RateLimits`, `Blobs`, `Photos`, `Search`, `Money`, `Decimals`, `Text`, `Widths` | the sliding window, files against rows under crashes, search escaping, reading and printing amounts, and the widths numbers are kept in |

The shape of each file follows the code: a class or method with loops where the code changes things step by step,
proved against a function or a step system whose properties are then proved as lemmas over every run.

## What turned out not to hold

Each of these comes with a lemma at an input that fails and the exact condition under which the code does as it says.

- **Order.** The queue promises to replay oldest first, but it sorts by the device clock (`Date.now()`), with
  equal stamps in key order. `ReplayTheorems.ClockBackBreaksOrder` gives the run, and
  `ReplayTheorems.OrderIffStampsInOrder` proves that two writes keep their order in every run exactly when the first's
  stamp is earlier, or as early with the smaller key, or the second is invalid and never enters.
- **Discard.** The confirmation says a discarded entry "will never reach the book"
  (`web/src/components/queued-writes.tsx:37`). `ReplayFinal.DiscardMayComeTooLate` is a run in which it does, and
  `ReplayFinal.DiscardIsFinalIff` proves exactly when it does not: the server would not accept the write anyway, or no
  request carries it and no drainer that can still go on holds it in its snapshot.
- **Refused.** An entry the device shows as refused, to be entered again, may be in the book already: its first answer
  was lost, and the write lock, checked before the key is looked up, turned the second attempt away
  (`ReplayTheorems.RefusedMayBeEntered`). Over all runs a refused write is out of the book exactly when it is invalid
  (`ReplayTheorems.RefusedIsOutIff`); in a given state one that has not entered stays out under the same condition as a
  discarded one (`ReplayFinal.RefusedIsFinalIff`). Both are cases of `ReplayFinal.NeverEntersIff`, which holds of every
  queued write.
- **The found corners.** In a photo more than 480 times as long as it is wide, a thumbnail pixel's middle lies outside
  the photo. `Slivers.SliverIsOutside` shows for every such photo a thumbnail in which a screen is found, whose quad then
  lies outside, and `Slivers.InsideIffNotTooNarrow` proves that the quad is inside for every picture exactly when the
  photo is not such a sliver.
- **Straightening.** `Collinear.ReachesIff` says for every quad whether the map computed reaches the four corners: with
  no three corners in a line it does; with three but not four in a line it does not, and no map does
  (`Quads.ReachedIsGeneral`); with all four in a line the place of the corners along it decides, because the elimination
  goes on with 1e-12 for a vanishing pivot, and equations that could be solved may come out unsolved
  (`Collinear.LevelGoesBothWays`, `Collinear.StandInShows`). `Quads.TopIsMissed` and `Quads.DiagonalIsMissed` are two quads that are missed; in the
  second the three corners other than the top-left are in a line, which is exactly when the equations determine no map
  (`Straighten.RectangleIsRegular`). Between the corners the map is defined everywhere exactly when the quad is strictly
  convex (`Quads.DefinedIffConvex`); then every point is taken from inside the quad (`Quads.SamplesInside`).
- **The last pixel.** `straighten` keeps the places it samples at within the photo, so that there is a pixel beyond to
  blend with. That succeeds, wherever the place was, exactly when the photo is two pixels or more both ways
  (`Scan.ClampedInPhoto`).
- **Months typed.** A payment's months are checked as a number of 64 bits and stored as one of 32, so what is stored is
  what was typed exactly below 2^31 (`Subscriptions.StoredMonths`). 4294967284 passes the check and is stored as -12;
  approved in a running trial it takes the end back a year and locks the shop at once (`Subscriptions.YearTakenBack`).
  `Subscriptions.NeverBackIffFit` proves that with given texts typed the end never moves back in any run exactly when
  the low 32 bits of each accepted number are below 2^31.
- **The sum of the lines.** An itemized credit is to be the sum of its lines (BR-12), but the server adds up in 64 bits.
  Three lines at the highest price are entered for a third of their sum (`Replays.DearLinesPassOver`); over all runs an
  entry's amount is its lines' sum exactly when that fits in 64 bits (`Replays.ItemizedAmountIsItsLines`). In the same way
  a form's amount is read back exactly when it fits (`Money.MajorUnitsRoundTrip`).
- **Files under other names.** `detachFiles` is described as removing attachments of one name; it removes all the
  records' attachments, and the blob rows and files of that name only. The others' attachments stay exactly when there
  are none under this name or none under others (`Photos.OtherNamesStayIff`; `Photos.OtherNameIsTaken` is a record that
  loses one). Each kind of record has files under one name only, so no caller meets this.

## Model

| member | source | states |
|---|---|---|
| ReplayInvariant.RunKeepsInv | web/src/lib/offline-queue.ts:110-146 | every state reached by any interleaving of new writes, drainers, loss, delay, repeats, discards and crashes keeps the whole invariant: queue, store, snapshots, network, log and book agree |
| ReplayInvariant.ReachedIsCleared | web/src/lib/offline-queue.ts:116-140 | when a drainer comes to an entry of its snapshot, every write queued and listed before it is in the book, refused or discarded, whatever the other drainers did meanwhile |
| ReplayTheorems.NothingIsLost | web/src/lib/offline-queue.ts:129-139 | in every reachable state a queued write the owner did not discard is still on the device unaltered, or has entered the book |
| ReplayTheorems.EnteredAtMostOnce | internal/domain/ledger.go:245-292 | in every reachable state each key has entered at most once and stands on at most one row, entered keys are still in the book while their account exists, and every cached balance is right |
| ReplayTheorems.OkIsOnlyAfterCommit | internal/api/accounts.go:402-430 | an OK answer on its way to a drainer means that its write has entered the book |
| ReplayTheorems.OrderIsKept | web/src/service-worker.ts:100-124 | when the later queued of two writes, with the later stamp or with an equal one and the greater key, entered the book, the earlier one had entered before it, or was refused or discarded |
| ReplayTheorems.ClockBackBreaksOrder | web/src/lib/offline-queue.ts:100-101 | for any two writes the second of which has an earlier stamp, or an equal one and the smaller key, there is a run in which the second enters while the first waits |
| ReplayTheorems.OrderIffStampsInOrder | web/src/lib/offline-queue.ts:60-63 | queue order of two writes holds over every run if and only if the first's stamp is earlier, or equal with the smaller key, or the second is invalid |
| ReplayTheorems.RunLogsValid | internal/domain/ledger.go:256-274 | in every reachable state, a queued write that has entered the book had no validation fault |
| ReplayTheorems.PlainCreditIsValid | internal/domain/ledger.go:256-274 | a credit of any positive whole amount that fits in 64 bits, under any key and stamp, has nothing wrong with it and comes to a hundred times as many chetrum: valid writes exist |
| ReplayTheorems.RefusedMayBeEntered | internal/api/accounts.go:402-411 | for every valid write there is a run in which it is marked as refused on the device although it has entered the book |
| ReplayTheorems.RefusedIsOutIff | internal/api/accounts.go:402-411 | a write marked as refused is out of the book in every run if and only if something is wrong with it |
| ReplayFinal.FinalIsFinal | web/src/lib/offline-queue.ts:74-77 | once a write that has not entered is not waiting, and held by no request and no drainer able to go on, or is unacceptable, every continuation leaves it that way and out of the book |
| ReplayFinal.Reach | web/src/lib/offline-queue.ts:116-140 | a drainer that can go on may come to any later place of its snapshot with the book unchanged |
| ReplayFinal.MayEnter | web/src/lib/offline-queue.ts:116-125 | while an acceptable write is waiting, or a request or a drainer able to go on still carries it, some continuation enters it, discarded or refused or not |
| ReplayFinal.NeverEntersIff | web/src/lib/offline-queue.ts:110-146 | in every reachable state a queued write not in the book stays out for ever if and only if it is unacceptable, or it is not waiting and nothing carries it |
| ReplayFinal.DiscardIsFinalIff | web/src/components/queued-writes.tsx:36-38 | in every reachable state a discarded write not in the book stays out for ever if and only if it is unacceptable or nothing carries it any more |
| ReplayFinal.RefusedIsFinalIff | web/src/components/queued-writes.tsx:22-33 | the same of a write marked as refused, which the owner is told to enter again |
| ReplayFinal.DiscardMayComeTooLate | web/src/components/queued-writes.tsx:36-38 | for every valid write there is a run in which it is discarded and still enters the book |
| Device.Queue.All | web/src/lib/offline-queue.ts:60-63 | lists exactly the stored entries, each with a stamp later than the one before it, or an equal one and a greater key |
| Device.Queue.WriteOrQueue | web/src/lib/write.ts:23-33 | with a signal the write goes to the server without a key, nothing is stored, and the answer is the server's; without one it is stored as it was made, under its new key, stamped, and dated now if it is dated and no date was typed; either way one step of the protocol, or none if it did not get that far |
| Device.DatedWhenMade | web/src/lib/write.ts:26-29 | whenever a queued write is at last entered, its row bears its key and the date typed, else for a dated write the time it was made, else the server's time |
| Device.Queue.Turn | web/src/service-worker.ts:102-122 | from any reachable state of the protocol, one entry's turn is a run of this drainer's own steps: skipped if refused before, else an answer of 200 to 299 deletes it and it is in the book, 401 and failures stop, and other refusals mark it with their number; the handler's answer is 200 for a write entered or there already, 422 for an invalid one and 404 without its account |
| Device.Queue.Drain | web/src/lib/offline-queue.ts:110-146 | from any reachable state and whatever others do between its turns, a whole drain is a run in which its turns are its own steps; it stops exactly at the first entry that gets no verdict; all before it are settled and no longer waiting at the end, those deleted are in the book, those marked were refused; sent and failed count these; with nobody else at work sent counts what left the store, failed what was newly marked, and the rest is untouched |
| Drains.HaltsByStatus | web/src/lib/offline-queue.ts:126-139 | a drain stops at an entry not refused before if and only if no answer comes, or one of 401, from 500 on, or on the page also below 400 |
| Drains.DealtStays | web/src/lib/offline-queue.ts:116-141 | whatever steps anyone takes, an entry a drain has dealt with is never waiting again, and its verdict stands |
| Drains.AfterTurn | web/src/lib/offline-queue.ts:129-139 | deleting or marking one entry leaves the rest of the snapshot as stored, and changes the counts by exactly one |
| Device.Request | internal/api/accounts.go:402-430 | a handled request leaves the book of recording its entry and answers with the status of what happened; one turned away changes nothing |
| Replays.ReplayChangesNothing | internal/domain/ledger.go:247-253 | recording under a key the book has leaves rows, lines, balances and audit trail as they were and answers with the row of that key |
| Replays.RecordingIsOneStep | internal/domain/ledger.go:247-292 | with any other requests between look-up and insert there is a place among them where recording in one step ends in the same book with the same answer, unless the account went meanwhile |
| Replays.LostRaceChangesNothing | internal/domain/ledger.go:285-292 | losing the insert race leaves the book as the winner left it, and nothing is entered |
| Replays.EnteredLessRemoved | internal/store/ledger.sql.go:109-115 | over any run, whatever accounts a key is sent to, it entered exactly once more than it was removed while it stands in the book, and exactly as often when it does not |
| Replays.OnlyRemovalRemoves | internal/domain/accounts.go:145-172 | only removing the account its row is on takes a key out of the book |
| Replays.OnceWhileItsAccountStands | internal/domain/ledger.go:247-292 | once a key has entered on an account it never enters again, on any account, as long as that one stands |
| Replays.AtMostOnceIff | internal/store/ledger.sql.go:109-115 | over any run a key enters at most one transaction if and only if it is never entered again after its row was removed with its account |
| Replays.AtMostOnce | internal/api/accounts.go:402-430 | so a key sent to one account only, as the address of a queued write is, enters at most once even across the account's removal |
| Replays.RowStays | internal/domain/ledger.go:386-395 | no request except removing its account takes a row out or changes its key, account or id |
| Replays.LineIsNearest | internal/money/money.go:43-47 | a line's total is within half a chetrum of quantity times price, and the server's is that total exactly when it fits in 64 bits |
| Replays.ItemizedAmountIsItsLines | internal/domain/ledger.go:341-354 | after any run, an entry with line items is an itemized credit, whatever was typed; its amount is the sum of their rounded totals if and only if that sum fits in 64 bits, and then within half a chetrum a line of the exact total |
| Replays.DearLinesPassOver | internal/domain/ledger.go:263-268 | three lines at the highest price are entered for a third of what they come to |
| Book.SumWraps | internal/domain/ledger.go:264-267 | whatever wrapped on the way, the server's sum of the lines is the low 64 bits of the exact sum |
| BookRuns.ApplyKeeps | internal/domain/ledger.go:245-395 | each request keeps ids increasing, keys unique, lines owned, itemized amounts the low 64 bits of their lines' sums, and every cached balance and last activity true |
| BookRuns.BalanceIsCreditsLessPayments | internal/store/accounts.sql.go:458-465 | the recomputed balance is total live credits less total live payments |
| BookRuns.CachedBalanceIsTrue | internal/store/accounts.sql.go:458-465 | after any run an account's cached balance is its live credits less its live payments, and last activity the latest live date |
| Requests.RecordedRow | internal/domain/ledger.go:276-308 | an entry made is the last row, under the next number, with the kind, texts, date, key and account typed, and one event in the audit trail with its amount |
| Requests.RecordedAmount | internal/domain/ledger.go:262-267 | its amount is that typed when it has no lines, and otherwise the low 64 bits of their sum |
| Requests.RecordedBalance | internal/store/accounts.sql.go:458-465 | the account's balance rises by the amount for a credit and falls by it for a payment, last activity is the later of the two dates, and no other account changes |
| Requests.PlainRecorded | internal/domain/ledger.go:256-308 | with n whole ngultrum typed, a credit raises what is owed by 100 n chetrum and a payment lowers it by as much |
| Requests.PlainEnteredIff | internal/domain/ledger.go:245-274 | an entry without lines is made if and only if its account exists, its key is new, its date reads and its amount reads and is above nothing; otherwise the book is as it was |
| Requests.RefusalSays | internal/domain/ledger.go:268-274 | a refused entry is told of its date if and only if that makes no sense, and of its amount if and only if that does not read or is not above nothing |
| Requests.RecordedLines | internal/domain/ledger.go:212-234 | an itemized credit is made only if each row is empty or complete, and its stored lines are the rows that are not empty, in order, with the names, quantities and prices typed |
| Requests.RowFaultsSay | internal/domain/ledger.go:218-227 | each fault of a row is reported if and only if the name is blank, the quantity not above nothing, the price no number, or below nothing |
| Requests.EditedRowIs | internal/domain/ledger.go:343-381 | an edit writes one row: the texts and date typed, the amount typed unless the entry has lines, whose sum stays; and one event in the audit trail |
| Requests.EditedBalance | internal/domain/ledger.go:378-380 | the balance moves by the difference in the amounts, with the kind's sign, for a live row, and not at all for a crossed-out one |
| Requests.EditedIff | internal/domain/ledger.go:345-364 | an edit is made if and only if the row exists, its lines' sum fits in 64 bits, the date reads, and it has lines or the amount reads and is above nothing; otherwise the book is as it was |
| Requests.PlainEdited | internal/domain/ledger.go:343-381 | with n whole ngultrum typed, a live row without lines is left at 100 n chetrum and what is owed moves by the difference |
| Requests.CrossedOutIs | internal/domain/ledger.go:384-395 | a live row is marked and its amount leaves what is owed, with the kind's sign; a crossed-out one is left alone |
| Requests.OpenedIs | internal/domain/accounts.go:98-108 | a new account gets the next number and owes nothing |
| Requests.RemovedIff | internal/api/accounts.go:355-364 | an account goes if and only if its live credits and its live payments come to the same; otherwise the book is as it was |
| Requests.RemovedWhole | internal/domain/accounts.go:145-172 | with an account its rows, their lines and their audit events go, and every other row, line and event stays |
| LedgerView.AccountLedgerIsOrdered | internal/store/ledger.sql.go:15-20 | the ledger's rows are exactly the account's rows, live or all, in order of date and then id |
| LedgerView.LedgerBalance | internal/domain/ledger.go:134-162 | listing in order, with or without crossed-out rows, keeps the balance at every place |
| LedgerView.PrefixIsUpTo | internal/domain/ledger.go:151-160 | what has been added up by a row of the ordered list is the balance of all rows at or before its place |
| LedgerView.RecordingShifts | internal/domain/ledger.go:245-310 | recording, even backdated, shifts the running balance at exactly the places at or after the new row, by its signed amount, on its account only |
| LedgerView.EditingShifts | internal/domain/ledger.go:343-382 | editing takes away the old row's effect and adds the new one's; with the date kept it shifts exactly the places at or after the row by the difference; editing a crossed-out row shifts nothing |
| LedgerView.CrossingOutShifts | internal/domain/ledger.go:384-395 | crossing out shifts exactly the places at or after the row by minus its signed amount |
| LedgerView.Ledger | internal/domain/ledger.go:134-162 | the loop shows every listed row, each live one with the balance of all live rows at or before its place, crossed-out ones with none |
| LedgerView.LedgerReads | internal/store/ledger.sql.go:15-20 | the ledger lists every row of the account, or every live one, by date and then by number, and shows no balance for crossed-out ones |
| LedgerView.RunningMoves | internal/domain/ledger.go:151-159 | a live row's running balance is that of the live row before it, or nothing, and its amount, added for a credit and taken off for a payment |
| LedgerView.LastLiveShowsBalance | internal/domain/ledger.go:151-161 | the running balance of the last live row is the account's cached balance |
| LedgerView.CrossedOutRowsShiftNothing | internal/domain/ledger.go:130-134 | a live row shows the same running balance whether crossed-out rows are listed or not |
| LedgerView.TurnRound | internal/api/accounts.go:281-283 | the entries are reversed in place |
| LedgerView.AccountPage | internal/api/accounts.go:271-283 | the account page is the whole ledger, newest first |
| LedgerView.FirstLiveShowsBalance | internal/api/accounts.go:277-283 | the first live row of the account page shows the account's cached balance |
| LedgerView.Statement | internal/api/accounts.go:447-472 | the statement's debit and credit are the live totals of each kind, and debit less credit is the cached balance |
| Server.ReadLines | internal/domain/ledger.go:212-234 | the loop keeps a line and its faults for exactly the rows that are not blank, in order |
| Server.CheckEntry | internal/domain/ledger.go:256-274 | lines, amount (the lines' sum where there are any) and every fault, in the order reported |
| Server.Database.InsertTransaction | internal/store/ledger.sql.go:109-115 | a key already present inserts nothing and returns no id; otherwise the row is appended under the next id |
| Server.Database.InsertLineItems | internal/domain/ledger.go:297-301 | the lines are appended to the table under the entry's id |
| Server.Database.Recompute | internal/store/accounts.sql.go:458-465 | the account's cached fields are those of its live rows; nothing else changes |
| Server.Database.RecordEntry | internal/domain/ledger.go:245-310 | statement by statement, with any other requests between look-up and insert, the database and the answer are those of the specification |
| Server.Database.EditTransaction | internal/domain/ledger.go:343-382 | the database afterwards and the answer are those of the specification of editing |
| Server.Database.CrossOutTransaction | internal/domain/ledger.go:384-395 | the database afterwards and the answer are those of crossing out; a second time changes nothing |
| Server.Database.DestroyAccount | internal/domain/accounts.go:145-172 | only an account with balance zero goes, with its rows, their lines and their audit events, and nothing else |
| Elimination.ColumnKeepsNull | web/src/lib/document-scan.ts:249-254 | taking multiples of the leading row from all others loses and gains no solution, whatever stands in for the pivot |
| Elimination.SwapKeepsNull | web/src/lib/document-scan.ts:248 | exchanging two rows neither loses nor gains a solution |
| Elimination.ZeroPivotIsSingular | web/src/lib/document-scan.ts:246-249 | a column with no pivot left means that the equations do not determine the unknowns, with a kernel vector to show it |
| Elimination.LargestIsFirst | web/src/lib/document-scan.ts:246-247 | the row chosen is the first from the column's own down whose entry in it is largest |
| Elimination.FindPivot | web/src/lib/document-scan.ts:246-247 | the loop finds that row |
| Elimination.SubtractRow | web/src/lib/document-scan.ts:252-253 | the inner loop takes the multiple of the leading row from one row, in place, and touches no other |
| Elimination.EliminateColumn | web/src/lib/document-scan.ts:249-254 | the loop leaves in every row what taking out the column leaves, 1e-12 standing in for a vanishing pivot |
| Elimination.ReducedKeeps | web/src/lib/document-scan.ts:244-255 | after the columns the solutions are those of the equations, and the columns are diagonal if they were independent |
| Elimination.Homography | web/src/lib/document-scan.ts:236-257 | for any two quads, the array loops come to exactly the coefficients of the specification, singular equations included |
| Elimination.HomographySolves | web/src/lib/document-scan.ts:236-257 | whenever the eight equations determine the unknowns, those coefficients solve all eight |
| Straighten.SolutionMapsCorners | web/src/lib/document-scan.ts:200-202 | coefficients that solve the equations take each from-corner to its to-corner wherever the denominator is not zero |
| Straighten.RectangleIsRegular | web/src/lib/document-scan.ts:183-191 | from an upright rectangle the equations determine the map if and only if the quad's corners other than the top-left are not in a line |
| Straighten.MapsAllCorners | web/src/lib/document-scan.ts:183-191 | with no three corners in a line no corner's denominator vanishes, and each corner is reached exactly |
| Collinear.SixColumns | web/src/lib/document-scan.ts:244-255 | from an upright rectangle, what the first six columns leave of the equations, for every quad |
| Collinear.ReachesIff | web/src/lib/document-scan.ts:183-191 | for every quad, the map straighten computes reaches all four corners if and only if no three of them are in a line, or all four are and the condition on their places in it holds |
| Collinear.CornerMap | web/src/lib/document-scan.ts:183-191 | the same of the coefficients the loops return |
| Collinear.LevelGoesBothWays | web/src/lib/document-scan.ts:249-256 | four corners at one height are reached if and only if the middle two coincide just when the outer two do |
| Collinear.StandInShows | web/src/lib/document-scan.ts:249-256 | with the middle two of four level corners in one place the coefficient g is 10^12 times the distance of the outer two |
| Quads.ReachedIsGeneral | web/src/lib/document-scan.ts:183-191 | coefficients of any kind that reach all four corners show that no three corners are in a line, or all four are |
| Quads.TopIsMissed | web/src/lib/document-scan.ts:249-256 | a quad whose equations determine a map, which misses a corner as every map does |
| Quads.DiagonalIsMissed | web/src/lib/document-scan.ts:249-256 | a quad whose equations determine no map, and whose corners no map reaches |
| Quads.TurnsAreDenominators | web/src/lib/document-scan.ts:196-202 | at each corner the denominator is the ratio of the quad's turn at the opposite corner to its turn at the third |
| Quads.DefinedIffConvex | web/src/lib/document-scan.ts:196-202 | a map that reaches the corners has no vanishing denominator anywhere in the upright picture if and only if the quad is strictly convex |
| Quads.SamplesInside | web/src/lib/document-scan.ts:196-202 | from a strictly convex quad, drawn either way round, every place of the picture has a positive denominator and is taken from inside the quad |
| Otsu.NextLevel | web/src/lib/document-scan.ts:124-129 | moving the threshold up a level adds that level's pixels to the class below and their brightness to its sum |
| Otsu.BetweenIsPositive | web/src/lib/document-scan.ts:130-133 | every threshold with pixels on both sides has a positive variance between the classes |
| Otsu.Histogram | web/src/lib/document-scan.ts:115-116 | counts the pixels of each brightness |
| Otsu.TotalBrightness | web/src/lib/document-scan.ts:118-119 | the levels weighed by their counts add up to the brightness of all pixels |
| Otsu.BestSplit | web/src/lib/document-scan.ts:120-138 | with the class below counted and summed as the threshold moves up, ends at the earliest best threshold |
| Otsu.Threshold | web/src/lib/document-scan.ts:114-139 | the earliest threshold of greatest between-class variance among all that split the picture, or 127 when none does |
| Spread.WithinAndBetween | web/src/lib/document-scan.ts:130-133 | at every threshold that splits, the variance between the classes and the spread within them, times the number of pixels, come to the same |
| Spread.BestIsClosest | web/src/lib/document-scan.ts:114-139 | so the best threshold's classes lie as close around their means as those of any other, and strictly closer than those of a lower one |
| Spread.OneBrightness | web/src/lib/document-scan.ts:122-139 | a picture of one brightness has the threshold 127 |
| Patch.AdjacentIsNeighbour | web/src/lib/document-scan.ts:155-156 | every pixel beside or above or below is among the four neighbours tried |
| Patch.NeighbourIsAdjacent | web/src/lib/document-scan.ts:155-156 | each neighbour tried is beside or above or below: rows do not wrap |
| Patch.FilledIsComponent | web/src/lib/document-scan.ts:148-162 | when the stack runs empty the pixels collected are exactly the component of the first |
| Patch.Fill | web/src/lib/document-scan.ts:148-162 | one flood fill terminates with exactly one connected component, each pixel once, and marks just those as seen |
| Patch.LargestPatch | web/src/lib/document-scan.ts:142-166 | the patch returned is one whole connected component without repeats, no component is larger, those that begin before it are smaller, and it is empty only when no pixel is bright |
| Screen.InsetIsGood | web/src/lib/document-scan.ts:53-62 | the fallback quad is convex, inside the photo, and no three of its corners are in a line |
| Screen.FindCorners | web/src/lib/document-scan.ts:86-105 | the first pixel of the patch furthest out along each diagonal |
| Screen.ExtremeIsConvex | web/src/lib/document-scan.ts:86-110 | extreme pixels along the diagonals never turn back: weakly convex with one orientation, for every patch |
| Screen.NarrowSides | web/src/lib/document-scan.ts:66-68 | both scaled sides are at least half a pixel if and only if no side is over 480 times the other |
| Screen.BackWithin | web/src/lib/document-scan.ts:106-110 | scaled back, a thumbnail pixel's middle lies within the photo if and only if the scaled side is at least half a pixel |
| Screen.LumaOf | web/src/lib/document-scan.ts:77-78 | each pixel's brightness, truncated to a byte |
| Screen.MaskOf | web/src/lib/document-scan.ts:79-81 | bright is strictly above the threshold |
| Thumbnail.BrightnessOf | web/src/lib/document-scan.ts:77-78 | a grey pixel is as bright as its level, a pure red, green or blue one 76, 149 or 29 |
| Thumbnail.BrightIsAbove | web/src/lib/document-scan.ts:79-81 | the bright pixels are exactly those the split does not count below the threshold |
| Thumbnail.LongerSide | web/src/lib/document-scan.ts:66-68 | a photo up to 240 pixels a side is its own thumbnail, and beyond that the longer side becomes 240 |
| Thumbnail.SidesAreRounded | web/src/lib/document-scan.ts:66-68 | both sides are scaled alike and rounded to the nearest pixel, but not below one |
| Thumbnail.ShareOf | web/src/lib/document-scan.ts:84 | a patch is taken for a screen if and only if it has eight in a hundred of the thumbnail's pixels |
| Thumbnail.InsetBy | web/src/lib/document-scan.ts:53-62 | the fallback quad stands in by eight in a hundred of each side |
| Thumbnail.DetectedIsFurthest | web/src/lib/document-scan.ts:86-110 | the corners found are, in order, the middles of the patch's pixels with the least and greatest x + y and x - y, in the photo's measure |
| Screen.DetectedIsGood | web/src/lib/document-scan.ts:83-110 | the quad is weakly convex for every picture; it lies inside the photo if and only if it is the inset or the photo is not a sliver |
| Screen.DetectScreen | web/src/lib/document-scan.ts:65-111 | the quad comes from the extreme pixels of the largest patch above the best threshold, or is the inset when that is too small; it is weakly convex, and inside the photo unless that is a sliver |
| Slivers.SliverIsOutside | web/src/lib/document-scan.ts:66-75 | for every sliver photo there is a thumbnail in which a screen is found, and every quad found in it lies outside the photo |
| Slivers.InsideIffNotTooNarrow | web/src/lib/document-scan.ts:65-111 | the quad lies inside the photo for every picture if and only if neither side is more than 480 times the other |
| Scan.DetectedIsSampledInside | web/src/components/payment-scanner.tsx:27-39 | a detected quad with no three corners in a line, straightened as it is, gives a defined map at every pixel of the picture, which is taken from inside the quad; and from inside the photo, unless that is a sliver |
| Scan.ClampedInPhoto | web/src/lib/document-scan.ts:201-208 | both pixels beside a place kept within the photo are pixels of it, wherever the place was, if and only if the photo has two or more that way |
| Scan.ClampMovesLittle | web/src/lib/document-scan.ts:201-202 | a place taken from inside the photo is moved by no more than the half pixel it was shifted by, and not at all away from the edges |
| Scan.BlendBetween | web/src/lib/document-scan.ts:213-217 | a blend of two values lies between them, so that a channel stays one of a byte's size |
| Scan.Pull | web/src/lib/document-scan.ts:196-220 | every pixel of the picture holds the three channels blended where the map takes its middle, and is opaque |
| Pictures.PixelIsShown | web/src/lib/document-scan.ts:201-216 | at the middle of a pixel away from the last column and row that pixel's own byte is shown |
| Pictures.EvenIsShown | web/src/lib/document-scan.ts:201-216 | a channel that changes evenly across the photo is shown as evenly between its pixels |
| Pictures.UprightIsCut | web/src/lib/document-scan.ts:183-191 | a quad that stands upright is cut out and scaled: the place shown moves in proportion along each side |
| Pictures.OwnOutlineIsItself | web/src/lib/document-scan.ts:183-220 | the photo's own outline straightened to its own size gives back the photo, but for its last column and row |
| Calendar.CyclesAgree | internal/domain/subscription.go:128 | adding up month lengths one by one and counting by four-, hundred- and four-hundred-year cycles reach the same first of the month |
| Calendar.EpochIsPlaced | internal/domain/subscription.go:128 | the first of January 1970 is 719528 days after that of year 0 |
| Calendar.FourHundredYears | internal/domain/subscription.go:128 | every four hundred years have 146097 days |
| Calendar.FromMarch | internal/domain/subscription.go:128 | from the first of March to the first of the month m months on are (153 m + 2) / 5 days |
| Calendar.TwelveMonths | internal/domain/subscription.go:128 | any twelve months on end are 366 days when they hold a 29 February and 365 otherwise |
| Calendar.MonthIsUnique | internal/domain/subscription.go:128 | a day falls in exactly one month |
| Calendar.AddMonthsMoves | internal/domain/subscription.go:121-129 | adding months, or taking them away, moves an instant by exactly the lengths of the months passed over: 28 to 31 days each, 365 or 366 for a year either way |
| Calendar.SameDayOfMonth | internal/domain/subscription.go:128 | adding months keeps the number of days into the month and the time of day, and runs over the end of a shorter month |
| Subscriptions.StoredMonths | internal/domain/payments.go:237-259 | the months stored are those typed if and only if these are below 2^31, not negative if and only if the low 32 bits are below that, and always the same modulo 2^32 |
| Subscriptions.BlankIsAYear | internal/domain/payments.go:237-241 | nothing but spaces typed is twelve months |
| Subscriptions.TypedIs | internal/domain/payments.go:238-243 | digits, with a sign or without, are their number if it is at least one and below 2^63, and are refused otherwise |
| Subscriptions.ExtendedMoves | internal/domain/subscription.go:121-137 | approving m months, negative ones too, moves the end from the later of now and the end by exactly m calendar months, sets grace 14 days after it, and the shop is locked exactly after grace; with m not negative the end never moves back |
| Subscriptions.TrialStands | internal/domain/subscription.go:44-57 | over any run without an approval the shop is on trial for three months, then fourteen days in grace, then locked |
| Subscriptions.PaidStands | internal/domain/subscription.go:121-137 | after an approval it is active for the months paid from the later of now and the old end, then fourteen days in grace, then locked |
| Subscriptions.StaleRefreshesAreHarmless | internal/domain/subscription.go:139-153 | over any run with arbitrarily stale status writes, the effective status at every later moment is that of the run without them |
| Subscriptions.RefreshSettles | internal/domain/subscription.go:139-153 | a refresh nobody overtakes writes the status that holds, and the time of the first lock, cleared when the shop is no longer locked |
| Subscriptions.CoverIsConserved | internal/domain/subscription.go:121-137 | over any run in which each accepted number of months is below 2^31 in its low 32 bits, the end lies 28 days a month approved or more beyond the trial's end, at most 31 days a month beyond the later of it and now, with grace 14 days after |
| Subscriptions.NeverBackIffFit | internal/domain/payments.go:242-259 | with given texts typed for the months, the end never moves back at any step of any run if and only if each accepted one is below 2^31 in its low 32 bits |
| Subscriptions.YearTakenBack | internal/domain/payments.go:242-259 | with 4294967284 months typed and approved, the end of a running trial moves back a year and the shop is locked at once |
| Subscriptions.SettledOnce | internal/domain/payments.go:264-296 | over any longer run, whatever months were typed, a payment once approved or rejected stays so, with the months it was stored with |
| Subscriptions.Billing.SubmitPayment | internal/domain/payments.go:233-260 | a payment is added as the step system does, with the months typed in 32 bits, a year when none are typed, and nothing when they are no number or less than one |
| Subscriptions.Billing.ExtendPeriod | internal/domain/subscription.go:121-137 | for any 32-bit number of months, writes the extended subscription and returns its end |
| Subscriptions.Billing.ApprovePayment | internal/api/settings.go:248-272 | a pending payment is approved and the period extended as the step system does; a reviewed one, or a shop without a subscription, changes nothing |
| Subscriptions.Billing.RejectPayment | internal/domain/payments.go:283-296 | a pending payment is rejected with its reason, trimmed and never blank, and the subscription left alone; a reviewed one is left as it was |
| Subscriptions.Billing.RefreshStatus | internal/domain/subscription.go:139-153 | writes status and disabled date worked out from the snapshot into the present row, or nothing when they agree |
| RateLimits.Limiter.Compact | internal/api/auth.go:178-183 | compacting in place keeps exactly the calls within the window, in order, although it writes to the array it reads |
| RateLimits.Limiter.Allow | internal/api/auth.go:173-190 | allowed if and only if fewer than the limit are recent; the key then holds the recent calls and this one if allowed; other keys are untouched |
| RateLimits.Limiter.Append | internal/api/auth.go:188 | appending in place or to a longer copy adds the call at the end and changes none before it |
| RateLimits.SliceIsEnough | internal/api/auth.go:178-188 | with time moving forward the compacted slice holds the same recent calls as the whole history of allowed ones, at every later moment |
| RateLimits.Limiter.AllowAll | internal/api/auth.go:173-190 | a new limiter through any calls of any keys holds of each key what the rule would keep, and with time moving forward allows exactly the calls with fewer than the limit of the key's allowed ones in the window behind them |
| RateLimits.WindowHoldsAtMostLimit | internal/api/auth.go:163-190 | over any run of calls no half-open window of the given length, ending anywhere, holds more than the limit of allowed ones |
| RateLimits.AllowedIff | internal/api/auth.go:178-188 | a call is allowed if and only if fewer than the limit of the allowed ones before it lie less than a window back |
| Blobs.RunKeeps | internal/domain/payments.go:49-100 | every step of every run of concurrent requests, with stops and crashes anywhere, keeps rows, files and pending work consistent |
| Blobs.ServedFilesAreThere | internal/domain/payments.go:49-61 | at every point of every run each committed attachment has its blob row and each row's file is in the store |
| Photos.Store.CreateBlob | internal/domain/payments.go:49-61 | the file is stored under its key and the row added under a new id |
| Photos.Store.DetachFiles | internal/domain/payments.go:84-100 | removes the records' attachments and the rows under the name, and returns exactly those rows' keys |
| Photos.Store.SetPhoto | internal/domain/photos.go:27-47 | an invalid upload changes nothing; a valid one is afterwards exactly what is served under the name, other records show what they did, the record's other names show nothing if it had a file under this one and what they did if not, and the keys returned are those no row points at any more |
| Photos.AcceptedIff | internal/domain/photos.go:29-36 | an upload is accepted if and only if there is one, a PNG, JPEG or WebP image of at most 3145728 bytes |
| Photos.SettingAlone | internal/domain/photos.go:27-47 | run through its steps on its own, a request that sets a photo stores the file and leaves the tables with it, and is to delete exactly the files replaced |
| Photos.AttachingAlone | internal/domain/ledger.go:314-325 | a request that attaches a screenshot adds its file, its row and its attachment, and is to delete nothing |
| Photos.RemovingAlone | internal/domain/photos.go:53-63 | a request that removes leaves no file under the name, and is to delete exactly those there were |
| Photos.OtherNamesStayIff | internal/domain/payments.go:84-100 | the records' attachments under other names stay if and only if there are none under this name or none under others |
| Photos.OtherNameIsTaken | internal/domain/payments.go:84-100 | a record with files under two names loses the attachment under the other one |
| Photos.Store.DeleteFiles | internal/storage/storage.go:109-118 | deleting files no row points at changes nothing that is served |
| Search.EscapedMatchesPrefix | internal/domain/accounts.go:66-71 | the escaped query and a percent sign match exactly the texts that start with the query |
| Search.SearchIsLiteral | internal/domain/accounts.go:66-71 | with case kept, the pattern matches exactly the texts in which the query occurs, whatever wildcards or backslashes it holds |
| Search.SearchIsLiteralButForCase | internal/store/accounts.sql.go:473-476 | with any folding of case that keeps the pattern's own characters apart, it matches exactly the texts whose folding contains the query's |
| Decimals.RoundHalfAwayIsRounded | internal/money/money.go:43-47 | rounding gives a nearest integer, and of two the one further from zero |
| Decimals.RoundedIsUnique | internal/money/money.go:43-47 | exactly one integer is so rounded, so any two sums that round line by line in this way agree |
| Money.MajorUnitsRoundTrip | internal/money/money.go:54-57 | what a form field holds reads back as its low 64 bits, negative ones too, and so as the same amount if and only if it fits |
| Money.MajorUnitsAreShort | internal/money/money.go:54-57 | a form field holds a point only when the amount is not whole, no zero at the end behind it, and a minus sign only below nothing |
| Money.ReadsPointed | internal/money/money.go:16-28 | digits, a point and up to two more digits come to exactly their value in chetrum, with the sign, before it is put in 64 bits |
| Money.ReadsRounded | internal/money/money.go:16-28 | with more than two digits after the point the value is rounded to the nearest chetrum, halves away from zero |
| Money.ReadsExponent | internal/money/money.go:23 | an exponent multiplies by as many tens |
| Money.ReadsNegativeExponent | internal/money/money.go:23-27 | a negative one divides by them, with rounding |
| Money.CommasCount | internal/money/money.go:18-41 | commas in an amount do not matter; a quantity is read like an amount but is refused with a comma |
| Text.TrimIsTheMiddle | internal/util/util.go:40-46 | trimming takes exactly the spaces at both ends |
| Text.PaddedTrims | internal/util/util.go:40-46 | spaces on either side of a text are trimmed away and leave it |
| Text.SomeSpaces | internal/util/util.go:40-46 | tabs, line ends and the plain, no-break and ideographic space are spaces; digits, signs, points and commas are not |
| Money.Delimit | internal/money/money.go:81-91 | without its commas the result is the digits, and every fourth place from the right and no other is a comma, never the first |
| Money.Ngultrum | internal/money/money.go:59-79 | the amount starts with a minus sign and Nu., a plus sign and Nu., or Nu., the rest reads back as its absolute value, and shows a point exactly when it is not whole |

## Left out

- Keys are compared only, so a number stands for each; new keys are taken to be new, as random UUIDs are.
- Each server transaction is one step of the protocol and of the book's runs; PostgreSQL isolation, row locks and deadlocks are not modelled. Other requests between look-up and insert are (`Server.Database.RecordEntry`); interleaving inside the later statements is not.
- After a lost insert race the winner's row is read in the same step; that it may be removed in between (answered with a rule error) is not modelled.
- Device.Queue.Drain: others act between its turns, not within one; any interleaving, down to single steps, is in the step system.
- The page's single-flight guard, its `navigator.onLine` check and Background Sync only lower the number of drainers at work; any number is allowed here.
- `all` answers with an empty list when IndexedDB cannot be read; that is a drainer that ends at once.
- An OK status is taken to come from the server's handler: a captive portal that answers 200 for it is not modelled. The device store does not fail or lose data.
- Screenshots sent along with a payment, who recorded or crossed out an entry, the audit trail's metadata, and times of creation are not kept in rows.
- ParseTime's layouts: a typed date is absent, bad, or a moment.
- A balance, a running balance or a statement's total beyond 64 bits, quantities beyond numeric(10, 2) and decimals with exponents beyond 32 bits are not modelled; PostgreSQL refuses such a cached balance or quantity, and the request fails. Amounts, prices and the sums of lines are kept in 64 bits as the code does (a number too large keeps its low bits, as Go's `math/big` has it), and so is the database's refusal to sum an entry's stored lines beyond them.
- Money.Ngultrum: does not model the smallest 64-bit number, which has no absolute value in 64 bits.
- The decimal library's reading of numbers is modelled by its grammar: sign, digits, one point, exponent.
- Floating point: the scanner is over the reals, so rounding, NaN and the 1e-12 stand-in's effect on near-singular equations are not modelled.
- Scan.Pull: is for photos of two pixels or more both ways and maps defined at every pixel; elsewhere the code reads what is not there or divides by zero, and goes on with NaN. The rounding of each channel to a byte is left out.
- Patch.Fill: the order in which a patch's pixels are collected is not stated, so which of several equally extreme pixels becomes a corner is stated relative to that order.
- Decoding photos, drawing the thumbnail, choosing the size of the straightened picture and encoding it.
- The calendar is Gregorian in one zone, as the server keeps UTC; an end beyond the years PostgreSQL's timestamps reach is not modelled.
- A payment's amount, method and screenshot are checked beside its months; a payment here is one that passes those checks.
- A subscription's settings page, day counts and summaries; `ceilDays` and `Overdue` are single expressions.
- The rate limiter's window is fixed for a key, as each endpoint's is; time does not go back within the process.
- Two requests that replace one record's photo at once may leave two attachments; `Blobs` proves only that both files are there.
- Storage paths, S3, attachment serving and content checks other than type and size.
- Search: the database's folding of case is any function of single characters; folding that changes a text's length is not modelled.
- Decimals.RoundedIsUnique: PostgreSQL's ROUND is taken to round half away from zero, as its manual says; its algorithm is not modelled beside Go's.
- Server.Database.DestroyAccount: does not model the account's own audit events or the screenshots' rows, whose files are in `Blobs`.
- Server.Database.RecordEntry: nothing interleaves after the insert, since each later statement is part of the same transaction.
- Menu grouping, bank accounts, invites, sessions, PINs, notifications and all of the user interface: bookkeeping without a hard property.
