# Event backend: verified model

A Dafny model of the stateful logic of an event-organising backend (Rust, PostgreSQL, Redis), with
proofs of what that logic is for. Run `dafny verify dfyconfig.toml`.

| part | modules |
|---|---|
| Shared expenses: cent-exact shares, balances, in-place greedy settlement, and what account deletion leaves of them | `Shares`, `Accounts`, `Settlement`, `SettlementPairs`, `Summary`, `SummaryMeaning`, `StoredExpenses` |
| Carpools: one role per user and event, the redundant seat counter, and the same requests interleaved statement by statement under two kinds of locks and on a bounded connection pool; runs with account deletion | `Carpools`, `CarpoolEffects`, `CarpoolTransactions`, `CarpoolCommits`, `CarpoolSteps`, `CarpoolSerial`, `CarpoolProgress`, `CarpoolPool`, `CarpoolAlone`, `CarpoolAccounts` |
| Native sessions: refresh rotation with a retry window, password resets, revocation, the periodic sweep | `Sessions`, `SessionEffects`, `SessionSweep`, `SessionStore` |
| Item ledger: an event item's running quantity against the contributions, in 32-bit arithmetic | `ItemLedger`, `ItemEffects`, `ItemStore` |
| Geocoding: the bounded recency cache and the lease that all workers share | `GeoCache`, `GeoGate` |
| Rate limiting: the sliding window with compaction, the fixed window in Redis | `RateLimiter` |
| Keyset pagination of event lists | `Pagination` |
| Notification outbox: claims, leases, backoff, deduplication, purge | `Outbox`, `OutboxEffects`, `OutboxStore` |
| Optional event features against the details they need, with patches one at a time and overlapping | `EventFeatures`, `EventMeaning`, `EventPatches` |
| Common definitions | `Options`, `Sets`, `Sums` |

Each part has the same shape. A datatype holds the rows or keys that matter, functions say what each
handler does to them, and lemmas about those functions and about all their runs state the promises.
Where the source updates state in place, a class with the same fields (or a method on an array)
carries the statements out one by one, and its contract equates the new state with the function.
The modules named Effects and Meaning say what each operation accepts and changes in terms of the rows and
the request alone, with the numbers written out, so that a wrong function cannot hide behind its own name.
Every lemma is marked `{:induction false}`: proofs by induction are written out.

Assumptions, where the source relies on something outside it: SQL statements and Redis scripts are
atomic; row and advisory locks are held to commit and committed rows are what other transactions read;
generated secrets, tokens and sequence values are new; hashes of secrets are injective (the hash of
the advisory lock name is arbitrary and may collide); a key or row with a time to live of `n` set at
`t` is present at times before `t + n`; times of successive operations do not decrease, except in
`SweepIsInvisibleIff`, `SweepNoticed` and `RevokedForever`, which take each `NOW()` as the start of its
transaction. In `CarpoolPool` each open carpool transaction holds one connection of the pool, a statement
outside a transaction borrows one, and requests of other kinds hold none for good; in the other carpool
modules connections are unlimited, which only allows more runs. Cascades are those of the migrations:
deleting a carpool deletes its passenger rows, deleting an event item its contributions, deleting a user
the user's rows.

Results that a reader of the source might not expect:

- Deleting the account of a passenger leaves the carpool's counter too high, because only the rows
  cascade (`AccountDeletionCountsIff`), and the empty seat is refused as taken (`SeatLost`); but nothing is
  ever overbooked (`NeverOverbooked`).
- Changing a carpool asks the pool for a second connection, to check the event, while it holds its
  transaction's connection and the row lock. As many open transactions as connections (5 by default) can
  therefore all wait, until the pool's timeout fails one of them (`UpdatesHang`, `HungStays`,
  `OneRollbackSuffices`); `DrainsIff` and `FewerThanConnectionsIff` say exactly when. The locks alone do not
  deadlock (`NoCyclicWait`).
- The sweep of expired sessions can be noticed: a refresh that began before the expiry may read its row after
  the sweep (`SweepNoticed`, `SweepIsInvisibleIff`).
- Attaching an item can set its cap below what is already reserved, and this is the only way over a
  cap (`AttachBreaksCapIff`, `CapsKept`, `CapBelowReserved`).
- A patch reads the event with one statement and updates it with another, without a transaction. A
  playlist cleared in between leaves the playlist feature without a playlist (`PlaylistLost`);
  `InterleavedConsistentIff` says exactly which late updates spoil the row.
- A blank `payment_identifier` in a patch does not clear the stored one: the update goes through
  `COALESCE`. The `payment` feature disappears and comes back with the next patch
  (`PatchSyncsIff`, `BlankIdentifierReturns`). If the same patch names another provider, the row keeps a
  link that the new provider may refuse, and later patches that name neither are refused
  (`AlwaysLinkedIff`, `StuckUntilNamed`, `LinkLost`).
- Deduplication of notifications survives the 30-day purge only for times to live of up to 30 days
  (`DedupIff`).
- A completion updates its outbox row by identifier alone. When a row is enqueued again while it is being
  delivered, the first delivery can mark the second content as sent although it was never claimed
  (`NeverClaimed`), or revive it for a ninth claim (`NinthClaim`); `FinishServesIff` and
  `UnclaimedIsSentIff` say exactly when.
- The shared gate keeps its one-second distance only if a request starts its call within 19 seconds of
  taking the lease (`SpacedIff`); the code bounds that wait by its 2-second Redis timeout.
- With Redis the limiter can admit twice its maximum in a closed interval of one window's length, for
  every maximum (`RedisBoundIsReached`, `RedisBoundIff`); the local limiter cannot (`WindowBound`).
- An expense without participants stays open for its payer: the settlement leaves exactly that amount
  (`SettlementIsExact`). The creation endpoint refuses such expenses (`CreatedExpensesSettleToZero`), but deleting
  the account of an expense's only participants leaves one (`StillSettledIff`).
- `docs/architecture.md` calls the geocoding cache FIFO. Storing a key again re-ranks it, so it is evicted
  by the most recent store of each key (`CacheAgrees`).

## Model

| member | source | states |
|---|---|---|
| `Shares.SharesAreExactAndFair` | src/routes/events/expenses.rs:524-545 | the shares of one expense sum exactly to its amount and any two differ by at most one cent |
| `Shares.FirstSharesBounded` | src/routes/events/expenses.rs:524-545 | while a non-negative expense is dealt, the running total stays between zero and its amount |
| `Accounts.Accumulate` | src/routes/events/expenses.rs:502-545 | the accumulation loops compute the ledger of all expenses and their grand total |
| `Accounts.AfterIsStatement` | src/routes/events/expenses.rs:502-545 | the map grown expense by expense equals, for each user alone, the sum of what that user paid and of that user's shares; nobody else has an entry |
| `Accounts.Conservation` | src/routes/events/expenses.rs:512-560 | over all users, paid is the total of all expenses, owed the total of those with participants, and the balances sum to the rest |
| `Accounts.NoOverflowIffTotalFits` | src/routes/events/expenses.rs:505-573 | every running total, account, balance and negated balance at every moment fits in 64 bits exactly when the grand total does |
| `Accounts.LedgerIgnoresOrder` | src/routes/events/expenses.rs:505-545 | the ledger depends only on the multiset of expenses, with the participants of each in any order |
| `Settlement.SettleInPlace` | src/routes/events/expenses.rs:562-599 | the two-pointer loop over the two arrays it decrements ends and returns the greedy transfers |
| `Settlement.TransfersAreSound` | src/routes/events/expenses.rs:574-599 | every transfer moves a positive amount from a debtor to a creditor |
| `Settlement.TransferCount` | src/routes/events/expenses.rs:574-599 | there are at most creditors plus debtors minus one transfers, and none if a side is empty |
| `Settlement.PairsAreDistinct` | src/routes/events/expenses.rs:574-599 | no two transfers join the same pair of users |
| `Settlement.CreditorsServedInOrder` | src/routes/events/expenses.rs:574-599 | each creditor receives what the whole debt leaves after the creditors before it, up to the credit |
| `Settlement.DebtorsPayInOrder` | src/routes/events/expenses.rs:574-599 | each debtor pays what the whole credit leaves after the debtors before it, up to the debt |
| `SettlementPairs.PairsOverlap` | src/routes/events/expenses.rs:574-599 | with the credits laid end to end and the debts beside them, each debtor pays each creditor exactly the cents that their two stretches share |
| `SettlementPairs.ListedInOrder` | src/routes/events/expenses.rs:574-599 | the transfers are listed creditor by creditor and debtor by debtor, with the handles of the two users |
| `Summary.BeforeIsTotalOrder` | src/routes/events/expenses.rs:556-560 | the comparison of balances is a strict order that ties no two different users |
| `Summary.OrderedUnique` | src/routes/events/expenses.rs:556-560 | sorting has one possible result for a set of balances, whatever order they came in |
| `Summary.BuildSummary` | src/routes/events/expenses.rs:497-607 | the whole endpoint: ledger, list from the hash map in any order, sort, settlement in place |
| `SummaryMeaning.BalancesStand` | src/routes/events/expenses.rs:555-560 | in every summary the larger balance stands first; equal ones by handle, a missing handle before any other and otherwise by characters; equal handles by ascending user |
| `SummaryMeaning.BalancesMean` | src/routes/events/expenses.rs:535-553 | every member and everybody an expense names is listed once, with what the user paid, owes, the difference, and the handle if the user is a member |
| `SummaryMeaning.LargerCreditsFirst` | src/routes/events/expenses.rs:562-599 | a creditor receives nothing until every strictly larger credit is paid in full |
| `SummaryMeaning.WhoPaysWhom` | src/routes/events/expenses.rs:562-599 | which debtor pays which creditor how much follows from the order of the balances alone |
| `SummaryMeaning.SettlementNames` | src/routes/events/expenses.rs:580-586 | each settlement carries the users and handles of a debtor's and a creditor's balance |
| `SummaryMeaning.AcceptedIff` | src/routes/events/expenses.rs:84-139 | an expense is accepted exactly with a title, a positive amount, a participant, and only members as payer and participants; the payer is the one named or else the requester, and participants are stored once |
| `Summary.SettlementIsExact` | src/routes/events/expenses.rs:562-599 | carrying out all transfers pays every debt in full, overpays no creditor, brings every balance to zero when the balances sum to zero, and otherwise leaves exactly the sum open |
| `Summary.SettlementIsSmall` | src/routes/events/expenses.rs:562-599 | in a summary the transfers go from negative to positive balances, repeat no pair, and are fewer than the balances |
| `Summary.CreatedExpensesSettleToZero` | src/routes/events/expenses.rs:61-215 | expenses as accepted at creation, with all their participants, always settle every balance to exactly zero |
| `StoredExpenses.DeletionLeaves` | migrations/001_initial_schema.sql:308-330 | the settlement of the summary shown after an account is deleted, with its cascades, pays every debt, overpays nobody and leaves open exactly the cents of the expenses that only that user took part in |
| `StoredExpenses.DeletionKeeps` | migrations/001_initial_schema.sql:308-330 | after an account is deleted exactly the expenses are left that the user neither paid nor created, each without the user |
| `StoredExpenses.StillSettledIff` | migrations/001_initial_schema.sql:308-330 | created expenses still settle every balance to zero after an account is deleted exactly when none of them was somebody else's expense for that user alone |
| `StoredExpenses.PaidForSomeoneGone` | migrations/001_initial_schema.sql:324-330 | an accepted expense whose only participant's account is deleted leaves ten cents open in every settlement after that |
| `Summary.SummaryIsDeterministic` | src/routes/events/expenses.rs:505-599 | two summaries of the same members and the same expenses are equal, whatever order the rows, the participants and the hash map came in |
| `Carpools.CreateKeeps` | src/routes/carpools.rs:543-630 | creating keeps seat counts and the one-role rule, and succeeds exactly for a user without a role in the event |
| `Carpools.JoinKeeps` | src/routes/carpools.rs:951-1136 | joining keeps both rules, and succeeds exactly for a user without a role when a seat is free |
| `Carpools.FreesKeeps` | src/routes/carpools.rs:1218-1253 | freeing an occupied seat keeps both rules and never needs the clamp at zero |
| `Carpools.UpdateKeeps` | src/routes/carpools.rs:690-780 | changing the number of seats never goes below the passengers or below one |
| `CarpoolEffects.CreateMeans` | src/routes/carpools.rs:543-630 | the user without a role in the event, and only that one, becomes the driver of a carpool with the requested seats, all free; nothing else changes |
| `CarpoolEffects.JoinMeans` | src/routes/carpools.rs:951-1136 | each role the user holds in the event has its own refusal, a full carpool has one, and otherwise the user and nobody else gains a seat; the reply is the number of passengers |
| `CarpoolEffects.LeaveMeans` | src/routes/carpools.rs:1195-1254 | leaving succeeds exactly for a passenger, who alone loses the seat; the reply is the number of passengers left |
| `CarpoolEffects.UpdateMeans` | src/routes/carpools.rs:717-770 | a change is accepted exactly when the seats asked for, or else the present ones, are at least one and enough for the passengers; that number is stored and answered, and nothing else changes; a refusal changes nothing |
| `CarpoolEffects.DeleteMeans` | src/routes/carpools.rs:836-865 | deleting ends the roles in that carpool and no others |
| `Carpools.DeclineReleasesEveryRole` | src/routes/invitations.rs:1314-1405 | after a decline the user drives and rides in nothing for the event although each lookup fetches at most one row, and others lose a role only as passengers of the deleted carpool |
| `CarpoolEffects.DeclineCounts` | src/routes/invitations.rs:1314-1405 | a decline leaves every other carpool with its event, driver and seats, and with the number of its passengers |
| `Carpools.SerialRunsAreValid` | src/routes/carpools.rs:484-1254 | after every transaction of every serial run of create, join, leave, update, delete and decline the counter equals the passenger rows, at most the seats, and every user has at most one role per event |
| `Carpools.AccountDeletionCountsIff` | migrations/001_initial_schema.sql:282-303 | after an account is deleted with its cascades the seat counters still match the passenger rows exactly when the user rode nowhere |
| `CarpoolEffects.AccountDeletionMeans` | migrations/001_initial_schema.sql:282-303 | with an account go exactly the user's roles and the carpools the user drives, with everybody's seats in them |
| `CarpoolAccounts.NeverOverbooked` | migrations/001_initial_schema.sql:282-303 | over every serial run that also deletes accounts the passengers are at most the counter and the counter at most the seats, users have at most one role per event, and leaving never clamps |
| `CarpoolAccounts.SeatLost` | migrations/001_initial_schema.sql:299-304 | a run after which an empty carpool with one seat refuses a passenger as full |
| `Carpools.Tables.CreateCarpool` | src/routes/carpools.rs:543-630 | the statements of creating produce the rows and the reply of the serial request |
| `Carpools.Tables.JoinCarpool` | src/routes/carpools.rs:951-1136 | the same for joining, with each of its refusals |
| `Carpools.Tables.LeaveCarpool` | src/routes/carpools.rs:1195-1254 | the same for leaving |
| `Carpools.Tables.UpdateCarpool` | src/routes/carpools.rs:690-780 | the same for updating |
| `Carpools.Tables.DeleteCarpool` | src/routes/carpools.rs:819-900 | the same for deleting, with the cascade |
| `Carpools.Tables.DeclineInvitation` | src/routes/invitations.rs:1314-1405 | the carpool half of a decline releases every role of the user, whichever rows its lookups return |
| `CarpoolTransactions.CommitIsSerial` | src/routes/carpools.rs:154-166 | what an interleaved transaction publishes at commit is what its whole request, run alone on the rows committed by then, would have produced, and that request succeeds |
| `CarpoolSteps.EveryInterleavingIsValid` | src/routes/carpools.rs:543-1254 | in every state of every interleaving of create, join, leave, update and delete, users hold at most one role per event and no carpool is overbooked |
| `CarpoolSerial.OnlySerialStates` | src/routes/carpools.rs:543-1254 | each step of an interleaving leaves the committed rows as they are or changes them as one whole request does |
| `CarpoolSerial.InterleavingIsSerial` | src/routes/carpools.rs:543-1254 | the committed rows after every interleaving are those of some serial run from the empty tables |
| `CarpoolSerial.RefusalIsSerial` | src/routes/carpools.rs:543-1254 | in every interleaving a request that a check of its own refuses would be refused, run alone on the rows committed by then; the one other reason is an event that takes no changes |
| `CarpoolAlone.AloneIsServed` | src/routes/carpools.rs:543-1254 | after every interleaving, when no transaction is open, each request can be run to its end statement by statement and leaves the rows that the serial request leaves |
| `CarpoolSerial.UniqueIndexesNeverFire` | src/routes/carpools.rs:580-630 | when a carpool or passenger row is inserted, no committed row and no other open transaction has the same event and user |
| `CarpoolSerial.LeaveNeverClamps` | src/routes/carpools.rs:1218-1253 | in every interleaving the counter that leaving lowers is at least one |
| `CarpoolProgress.WaitingDescends` | src/routes/carpools.rs:154-166 | whoever waits for a lock has more locks ahead of it than the holder, because the advisory lock comes before the row lock |
| `CarpoolProgress.NoCyclicWait` | src/routes/carpools.rs:154-166 | the locks alone do not deadlock: a chain of transactions waiting for locks has at most three members and never closes, even when lock hashes collide |
| `CarpoolProgress.SomeoneCanAdvance` | src/routes/carpools.rs:154-166 | while a transaction is open, some open transaction waits for no lock; it may still wait for a connection |
| `CarpoolPool.PoolRunIsRun` | src/db.rs:36-37 | a pool of `n` connections only delays: every run on it is one of the interleavings, with at most `n` transactions open |
| `CarpoolPool.DrainsIff` | src/routes/carpools.rs:686-707 | after every run on a pool of any size the open transactions can all be brought to their end by their own steps, without a rollback, exactly when a connection is free or some transaction, with its remaining locks free, needs no second connection |
| `CarpoolPool.HungStays` | src/routes/carpools.rs:686-707 | otherwise nothing but a rollback moves the pool again: in every continuation nobody begins, ends or commits |
| `CarpoolPool.OneRollbackSuffices` | src/routes/carpools.rs:705-707 | after the rollback of any one open transaction all the others can end |
| `CarpoolPool.UpdatesHang` | src/routes/carpools.rs:686-707 | every pool hangs on as many updates of one carpool as it has connections |
| `CarpoolPool.FewerThanConnectionsIff` | src/config.rs:251 | all runs with at most `m` transactions open at a time can be brought to their end without a rollback exactly when the pool has more than `m` connections |
| `Sessions.OnlyTwoSecretsAccepted` | src/routes/auth.rs:245-272 | in every run a session accepts at most its current secret, and its previous one within the window, and nothing 365 days after its creation |
| `Sessions.RefreshAnswer` | src/routes/auth.rs:245-300 | exactly which refresh requests are answered, with which secret, and what they change in the row |
| `SessionEffects.RotationMeans` | src/routes/auth.rs:273-292 | a rotation stores the new secret, keeps the old one for 300 seconds, and extends the session to 90 days from now, at most 365 days from its creation; nothing else changes |
| `SessionEffects.AcceptedIff` | src/routes/auth.rs:249-268 | a secret is accepted exactly by a session within its two times, whose user is neither suspended nor at a later version, and that carries it, as the previous one only in time |
| `SessionEffects.IssueMeans` | src/routes/auth.rs:128-152 | a login opens a session for 90 days with the version it read, which is accepted only while that is the user's version |
| `SessionEffects.LogoutMeans` | src/routes/auth.rs:1685-1692 | logging out deletes exactly the sessions that carry the secret, as the current or the previous one |
| `SessionEffects.LoggedOutForever` | src/routes/auth.rs:1685-1692 | in every continuation both secrets of a session that was logged out are refused |
| `Sessions.RotationDisplaces` | src/routes/auth.rs:273-292 | a rotation displaces the secret that was already the previous one |
| `Sessions.DisplacedForever` | src/routes/auth.rs:245-300 | a displaced secret is refused in every continuation, given that generated secrets are new |
| `Sessions.RetriesReturnTheSameSecret` | src/routes/auth.rs:250-300 | while the new secret is unused, every request with the replaced one within five minutes gets that same new secret and changes nothing more |
| `Sessions.LifetimeIsAbsolute` | src/routes/auth.rs:128-152 | no operation moves a session's creation time or lets it outlive 365 days from it |
| `Sessions.RunKeeps` | src/routes/auth.rs:128-300 | in every run the stored secret matches the stored hash, no two sessions share a secret, and no session is ahead of its user's version |
| `SessionSweep.RetirementIsPermanent` | src/routes/auth.rs:250-266 | a session refused because of time, a version bump or a suspension is refused for ever, also after the suspension is lifted, while `NOW()` does not go back |
| `SessionSweep.RevokedForever` | src/routes/safety.rs:186-187 | after a suspension, its lifting or a completed reset, no secret is ever accepted again for any session the user had, in whatever order the operations' `NOW()`s lie |
| `SessionSweep.ResetIsSingleUse` | src/routes/account_recovery.rs:116-140 | a reset token changes a password at most once, whatever happens in between |
| `SessionEffects.SuspensionMeans` | src/routes/safety.rs:186-187 | suspending and lifting set the flag and raise the version by one, and touch no other user |
| `SessionEffects.RequestMeans` | src/routes/account_recovery.rs:46-51 | a reset is written exactly for a user with a password login who is not suspended and asked for none in the last 60 seconds; it lasts 1800 seconds and replaces the one before |
| `SessionEffects.ConfirmMeans` | src/routes/account_recovery.rs:116-140 | a reset is confirmed exactly while it lasts and its user has a password login and is not suspended; it is used up and the version rises by one |
| `SessionEffects.SweepMeans` | src/cleanup.rs:78-84 | the sweep deletes exactly the sessions past their expiry or their 365 days and the resets past their expiry |
| `SessionSweep.SweepIsInvisibleIff` | src/cleanup.rs:78-84 | over every run, with any order of `NOW()`s, the sweeps of sessions and resets change no answer of any refresh, login, logout, reset request or confirmation exactly when no operation comes to a row, in force at its own `NOW()`, that a sweep deleted before |
| `SessionSweep.SweepIsInvisible` | src/cleanup.rs:78-84 | in particular when no operation carries a `NOW()` before that of a sweep that came before it |
| `SessionSweep.SweepNoticed` | src/routes/auth.rs:245-266 | a run in which a refresh begun a second before the expiry reads after a sweep and is refused, and is renewed without the sweep |
| `SessionStore.Store.IssueSession` | src/routes/auth.rs:128-152 | inserting a session row performs the step of the machine |
| `SessionStore.Store.RefreshSession` | src/routes/auth.rs:208-300 | the statements of one refresh perform the step: rotate, repeat the last answer, or refuse |
| `SessionStore.Store.Logout` | src/routes/auth.rs:1680-1694 | logging out deletes the sessions that carry the token, as current or previous secret |
| `SessionStore.Store.Moderate` | src/routes/safety.rs:186-187 | suspending and unsuspending set the flag and raise the version, except on the moderator's own account |
| `SessionStore.Store.RequestReset` | src/routes/account_recovery.rs:46-51 | a reset is inserted, replaced after a minute, or ignored |
| `SessionStore.Store.ConfirmReset` | src/routes/account_recovery.rs:116-140 | confirming deletes the reset and raises the version, or changes nothing |
| `SessionStore.Store.CleanupAuthState` | src/cleanup.rs:78-84 | the sweep deletes exactly the expired sessions and resets |
| `ItemLedger.ReserveAccepts` | src/routes/events/items.rs:545-637 | a reservation is accepted exactly when what the others bring plus the request is within the cap, in spite of 32-bit wrap-around |
| `ItemEffects.ReserveRefusals` | src/routes/events/items.rs:522-600 | a refused reservation says whether the request is negative, the item is missing or the cap would be passed, and changes nothing |
| `ItemEffects.ReserveMeans` | src/routes/events/items.rs:600-637 | an accepted one becomes the user's contribution, absent if it is zero, moves the quantity by the difference and changes nothing else |
| `ItemLedger.ReserveKeeps` | src/routes/events/items.rs:545-637 | the incremental update keeps the quantity equal to the sum of the contributions |
| `ItemLedger.DeclineReleasesContributions` | src/routes/invitations.rs:1254-1312 | a decline removes exactly the user's contributions to the event, subtracts exactly those and so never needs its clamp at zero |
| `ItemLedger.RecomputationAgrees` | src/routes/users.rs:414-451 | recomputing the affected quantities at account deletion gives what subtracting the user's contributions would |
| `ItemLedger.DeleteAccountReleases` | src/routes/users.rs:414-463 | after account deletion exactly the items of the user's own events and the items the user created that people bring themselves are gone; the user contributes nothing, and every other item keeps what the others bring and loses only its creator if that was the user |
| `ItemLedger.AttachBreaksCapIff` | src/routes/events/items.rs:225-237 | attaching leaves all items within their caps exactly when it does not set the cap below the reserved quantity |
| `ItemEffects.AttachMeans` | src/routes/events/items.rs:187-237 | attaching writes the cap; a new row has nothing reserved and the organiser as creator, an attached one keeps both |
| `ItemEffects.CustomMeans` | src/routes/events/items.rs:313-463 | only the organiser adds a need; an attached item of the same name and kind gets the quantity on top of its cap, unless that leaves 32 bits, and otherwise a new item is attached |
| `ItemEffects.DeleteItemMeans` | src/routes/events/items.rs:700-763 | the organiser and the item's creator, and nobody else, may delete an item; exactly its contributions go with it |
| `ItemLedger.CapBelowReserved` | src/routes/events/items.rs:225-237 | a run that attaches a cap of one to an item of which five are reserved |
| `ItemLedger.CapsKept` | src/routes/events/items.rs:443-455 | no other operation takes an item over its cap |
| `ItemLedger.EveryRunIsValid` | src/routes/events/items.rs:187-783 | in every reachable state of a serial run each quantity is the sum of the contributions |
| `ItemLedger.EveryRunWithinCaps` | src/routes/events/items.rs:225-237 | runs that never attach a cap below what is reserved keep every item within its cap |
| `ItemStore.Tables.ReserveEventItem` | src/routes/events/items.rs:545-637 | the reservation's reads and writes perform the ledger operation |
| `ItemStore.Tables.AttachEventItem` | src/routes/events/items.rs:187-237 | attaching inserts the row or changes its cap only |
| `ItemStore.Tables.DeleteEventItem` | src/routes/events/items.rs:743-763 | deleting an item deletes its contributions |
| `ItemStore.Tables.DeclineReservations` | src/routes/invitations.rs:1254-1312 | the loop over the user's reservations, in any order, performs the decline |
| `ItemStore.Tables.SumParts` | src/routes/users.rs:438-442 | the aggregate over the contributions to one item |
| `ItemStore.Tables.DeleteAccountItems` | src/routes/users.rs:414-463 | the deletion, the recomputation loop and the cascades perform the account deletion |
| `GeoCache.CacheAgrees` | src/routes/events/address.rs:182-212 | after any stores a key is present exactly when its last store is under 24 hours old and fewer than 128 distinct other keys were stored since, and it holds the value of that store |
| `GeoCache.LookupAgrees` | src/routes/events/address.rs:119-130 | a lookup hits exactly when the key is still promised and the entry's own creation time is within the last day, and returns the last stored results |
| `GeoCache.OrderBounds` | src/routes/events/address.rs:182-212 | live keys are in the order set, which holds at most 128 keys, and a store never evicts its own key |
| `GeoCache.Client.StoreCache` | src/routes/events/address.rs:188-199 | the script's commands and its eviction loop perform the store |
| `GeoGate.OneCallInFlight` | src/routes/events/address.rs:131-169 | in every run, with cancellations and late releases, at most one provider call is in flight and its request holds the gate, if calls start less than 20 seconds after their lease |
| `GeoGate.OneAtATimeIff` | src/routes/events/address.rs:131-169 | at most one call is in flight in every run exactly under that bound |
| `GeoGate.SpacedIff` | src/routes/events/address.rs:131-169 | each call starts at least a second after the previous one ended, in every run, exactly when calls start within 19 seconds of their lease |
| `GeoGate.SlowStart` | src/routes/events/address.rs:131-169 | a run with a later start in which the next call begins 999 milliseconds after the previous one |
| `GeoGate.ReleaseKeeps` | src/routes/events/address.rs:153-169 | a release, however late, never opens the gate before the cooldown of any call, because the script compares tokens |
| `GeoGate.LeaseRunsOut` | src/routes/events/address.rs:131-152 | without a release the next request gets the gate exactly when 30 seconds have passed since the lease was taken |
| `GeoGate.ReleaseFrees` | src/routes/events/address.rs:153-169 | after the holder's release the next request gets the gate exactly when one second has passed |
| `GeoGate.LateReleaseIgnored` | src/routes/events/address.rs:156-159 | a release by another request, or after the lease ran out, leaves the gate as it is |
| `GeoGate.Gate.TryAcquire` | src/routes/events/address.rs:131-152 | the command performs the machine's step and keeps its invariant; a request that gets the lease finds every earlier call over, with its cooldown |
| `GeoGate.Gate.ReleaseGate` | src/routes/events/address.rs:156-169 | the script performs the machine's step, keeps its invariant, and reports whether the lease was still the request's own |
| `RateLimiter.LocalRefinesNaive` | src/rate_limit.rs:28-67 | wherever compaction ran, a call is admitted exactly when fewer than the maximum of admitted calls of its key lie in the closed window ending now |
| `RateLimiter.AdmittedIff` | src/rate_limit.rs:38-67 | wherever compaction ran, a call is admitted exactly when the closed interval of the window's length that ends now holds fewer than the maximum of admissions of its key |
| `RateLimiter.CompactionForgets` | src/rate_limit.rs:28-60 | after a call its bucket holds no expired time, and after a compaction no other bucket does or is empty |
| `RateLimiter.WindowBound` | src/rate_limit.rs:38-67 | any closed interval of the window's length holds at most the maximum of admissions of a key |
| `RateLimiter.DenialsAreFree` | src/rate_limit.rs:60-66 | a denied call is not an admission and changes no later one of any key |
| `RateLimiter.DenialsChangeNoAnswer` | src/rate_limit.rs:38-67 | a call that the limiter denied changes none of its later answers, wherever either run compacts |
| `RateLimiter.PrunedIsRecent` | src/rate_limit.rs:28-36 | popping expired times from the front of a sorted bucket filters the bucket |
| `RateLimiter.RedisAdmitsIff` | src/rate_limit.rs:69-90 | with Redis a call is admitted exactly when fewer than the maximum of calls of its key, admitted or not, came since the call that opened the present fixed window |
| `RateLimiter.RedisBound` | src/rate_limit.rs:69-90 | with the fixed window any closed interval of its length holds at most twice the maximum |
| `RateLimiter.RedisBoundIsReached` | src/rate_limit.rs:69-90 | for every maximum that many are admitted: the maximum at the start of one window and again at the start of the next |
| `RateLimiter.RedisBoundIff` | src/rate_limit.rs:69-90 | with Redis the bound of the local limiter holds in every run only if the maximum is zero |
| `RateLimiter.Limiter.PruneBucket` | src/rate_limit.rs:28-36 | the popping loop drops exactly the expired front of the bucket |
| `RateLimiter.Limiter.AllowLocal` | src/rate_limit.rs:38-67 | compaction when due, pruning and admission perform the step |
| `Pagination.WalkIsComplete` | src/routes/events/listing.rs:88-132 | following cursors from the first page concatenates to exactly the ordered list, in the fewest pages and at least one, all but the last full, for both directions and for identifiers, also with equal start times |
| `Pagination.FollowIsComplete` | src/routes/events/listing.rs:43-132 | a client that repeats an accepted query with each cursor it is given receives the full list in the requested order |
| `Pagination.FollowedList` | src/routes/events/listing.rs:43-132 | that client receives every row once, ordered by start and identifier, backwards if it asks for it or for past events without a sort, in full pages of its limit, or of 50, and a last one |
| `Pagination.FollowIdsIsComplete` | src/routes/events/core.rs:120-174 | the same for the list by identifier |
| `Pagination.FollowedIds` | src/routes/events/core.rs:120-174 | and there every row once by ascending identifier, in pages of its limit, or of 50 |
| `Pagination.ParsedIff` | src/routes/events/listing.rs:43-70 | which queries are searches, which of them are accepted, and what they ask for |
| `Pagination.CursorIff` | src/routes/events/listing.rs:71-80 | an accepted query takes a cursor exactly if it is a record of version 1 with a positive identifier made for the same text, view and sort, and starts there |
| `Pagination.PageParsedIff` | src/pagination.rs:34-56 | which page parameters are accepted, what they default to, and how others are refused |
| `Pagination.ForeignCursorRefused` | src/routes/events/listing.rs:71-86 | a cursor handed out is accepted by exactly the queries that agree with its own in text, view and sort, and refused as invalid by the others |
| `Pagination.JsonPage` | src/pagination.rs:58-72 | the page is the first rows of what was fetched, at most the limit; there is a next cursor exactly when more was fetched, and it names the last row of the page |
| `Outbox.ClaimsAreSeparated` | src/notifications.rs:135-179 | in every run two claims of a row with nothing between them are more than five minutes apart, a claim directly after a failure waits out its delay, and an ended row is not claimed without a new enqueue |
| `Outbox.AttemptsCountClaims` | src/notifications.rs:158-170 | the attempts of a row are its claims since the last effective enqueue |
| `OutboxEffects.BatchPicks` | src/notifications.rs:143-157 | a batch claims the due rows of lowest identifier, 20 of them or all if there are fewer |
| `OutboxEffects.BatchMeans` | src/notifications.rs:135-170 | a claimed row is in delivery since now with one attempt more, a row that was sent or died more than 30 days ago is gone, and every other row stays |
| `OutboxEffects.FinishMeans` | src/notifications.rs:190-275 | a completed delivery is sent, a refused one dead, and a failed one dead after its eighth attempt and otherwise due again after two seconds, doubled with each further attempt; no other row changes |
| `OutboxEffects.SentByCompletion` | src/notifications.rs:235-249 | in every run a row is sent only by the completion of a delivery of that row, and has stayed sent since |
| `OutboxEffects.DeadByFailure` | src/notifications.rs:253-275 | and a row dies only by a refused contact or a failed eighth attempt of its own |
| `OutboxEffects.EnqueueMeans` | src/notifications.rs:798-837 | an enqueue is refused exactly while a row of its key has not expired; otherwise one row, new or the expired one, is due now with no attempt, and no other row changes |
| `Outbox.EndsWithinEight` | src/notifications.rs:235-279 | when nothing is abandoned, deliveries end within the lease and no enqueue hits a row that is being delivered, a row takes at most eight claims and is sent or dead once the eighth delivery is over |
| `Outbox.OrderlyServes` | src/notifications.rs:235-279 | in such a run every completion acts on the enqueue and the attempt it was claimed for |
| `Outbox.FinishServesIff` | src/notifications.rs:235-279 | in every run a completion acts on the enqueue and the attempt it was claimed for exactly when the row was neither enqueued nor claimed since |
| `Outbox.UnclaimedIsSentIff` | src/notifications.rs:235-249 | in every run a completed delivery marks content as sent that was never claimed exactly when the row was enqueued again after its claim and not claimed since |
| `Outbox.NeverClaimed` | src/notifications.rs:235-249 | a run in which a delivery of one second marks a second enqueue as sent that was never claimed |
| `Outbox.NinthClaim` | src/notifications.rs:253-275 | a run, with all deliveries within their lease, in which a late failure revives a dead row for a ninth claim |
| `Outbox.AbandonedTimes` | src/notifications.rs:135-170 | abandoned claims are not limited at all |
| `Outbox.DelaysGrow` | src/notifications.rs:253-258 | delays do not decrease with the attempts and lie between 2 and 1024 seconds, so the limit of an hour never applies |
| `Outbox.DedupIff` | src/notifications.rs:749-785 | effective enqueues of a key are at least the earlier one's time to live apart, over every interleaving with claims, completions and the purge, exactly when times to live are at most 30 days |
| `Outbox.PurgedTooEarly` | src/notifications.rs:137-141 | a run that purges the row of a longer-lived key before its time |
| `Outbox.SendToTokens` | src/notifications.rs:383-396 | the fold over the devices is rejected exactly when some device is, and accepted exactly when some device accepted and none rejected |
| `OutboxStore.Table.EnqueueNotification` | src/notifications.rs:798-837 | the upsert inserts, overwrites the expired row of the same key, or does nothing; it performs the machine's step and keeps its invariant |
| `OutboxStore.Table.ProcessBatch` | src/notifications.rs:135-170 | one statement purges ended rows after 30 days and claims up to 20 due rows in order of identifier; it performs the machine's step and keeps its invariant |
| `OutboxStore.Table.CompleteRow` | src/notifications.rs:235-249 | a completed delivery performs the machine's step on whatever its row is by then, and keeps the invariant |
| `OutboxStore.Table.RetryRow` | src/notifications.rs:253-275 | a failed delivery performs the machine's step, by the attempts its claim returned, and keeps the invariant |
| `OutboxStore.Table.RefuseRow` | src/notifications.rs:190-193 | a notification that the contact check refuses ends as dead, whatever its row is by then, and the invariant is kept |
| `EventFeatures.AlwaysConsistent` | src/routes/events/core.rs:195-870 | over every serial run of create, replace and patch, stored features are distinct and allowed, the playlist columns are both set or both absent, and the playlist and payment features have their details |
| `EventPatches.InterleavedConsistentIff` | src/routes/events/core.rs:668-826 | with any number of patches between their read and their update, every state of a run is consistent exactly when no update names neither playlist column while listing the playlist of a row that lost it, or names one column that does not fit the other as it is by then |
| `EventPatches.WriteKeepsIff` | src/routes/events/core.rs:787-830 | the same for one late update of a consistent row, with what the table's constraint refuses |
| `EventPatches.UnchangedIsSafe` | src/routes/events/core.rs:787-830 | an update spoils nothing while the playlist columns are the ones it read |
| `EventPatches.PaymentAlwaysFits` | src/routes/events/core.rs:668-826 | in every interleaving the features stay distinct and allowed and the payment columns and feature fit each other |
| `EventPatches.PlaylistLost` | src/routes/events/core.rs:668-826 | a run in which an unrelated patch lists the playlist of a row whose playlist was cleared since it was read |
| `EventFeatures.NormalizedAccepts` | src/routes/events/mod.rs:486-510 | a list is accepted exactly when its non-blank names are all allowed |
| `EventFeatures.NormalizedMeans` | src/routes/events/mod.rs:486-510 | an accepted list keeps exactly the names that stand in it, each once |
| `EventMeaning.WriteIff` | src/routes/events/core.rs:251-285 | an event is accepted exactly when its payment, its playlist and its list of features, if it has one, are acceptable, told by the texts it sends |
| `EventMeaning.WriteStores` | src/routes/events/core.rs:251-285 | it is stored with trimmed links, a lower-case playlist provider and the features it lists; without a list with the three defaults, and playlist and payment if it has the details |
| `EventMeaning.PatchIff` | src/routes/events/core.rs:682-787 | a patch is accepted exactly when it does not clear one playlist column alone and what holds after it, with its list of features, is acceptable |
| `EventMeaning.PatchStoresFeatures` | src/routes/events/core.rs:765-787 | after it the features are the ones it lists, or else the old ones with playlist and payment as the details after it say |
| `EventMeaning.WriteRefusal` | src/routes/events/core.rs:251-285 | an event is refused for its payment first, then its playlist, its features, and last a payment provider that does not exist |
| `EventMeaning.PatchRefusal` | src/routes/events/core.rs:682-787 | and a patch in the same order |
| `EventFeatures.SyncMeans` | src/routes/events/mod.rs:563-583 | synchronising sets the two optional features to what the details say and touches no other |
| `EventFeatures.PatchWithoutFeatures` | src/routes/events/core.rs:765-787 | a patch of a consistent event that gives no features never fails over features |
| `EventFeatures.PatchedPlaylistStored` | src/routes/events/core.rs:729-763 | with no write in between, the pair a patch stores is the pair it validated, although it writes only the columns it names |
| `EventFeatures.PatchStores` | src/routes/events/core.rs:821-830 | an accepted patch stores the validated playlist pair, the provider it names or else the old one, and the identifier it gives, trimmed, or else the old one |
| `EventFeatures.EmptyPatchKeeps` | src/routes/events/core.rs:682-787 | an accepted patch without any field changes no detail and no feature but the two optional ones |
| `EventFeatures.PatchSyncsIff` | src/routes/events/core.rs:765-828 | after a patch without features the optional features say which details the row has, exactly when the patch does not blank a stored payment identifier |
| `EventFeatures.AlwaysLinkedIff` | src/routes/events/core.rs:683-689 | over every serial run of create, replace and patch the stored payment link stays valid for the stored provider exactly when no accepted patch blanks a stored identifier while naming a provider that refuses the link |
| `EventFeatures.StuckUntilNamed` | src/routes/events/mod.rs:777-807 | once the link does not match, every number of patches that name neither payment column is refused and leaves the row as it is |
| `EventFeatures.LinkLost` | src/routes/events/core.rs:683-826 | an accepted patch in the excepted case, after which a patch without any field is refused |
| `EventFeatures.BlankIdentifierReturns` | src/routes/events/core.rs:765-828 | a blanked identifier hides the payment feature and the next patch brings it back |
| `EventFeatures.NormalizeEnabledFeatures` | src/routes/events/mod.rs:486-510 | the loop with its set of seen names computes the normalised list, or refuses at the first unknown name |
| `EventFeatures.SyncOptionalFeatures` | src/routes/events/mod.rs:563-583 | the pushes and retains compute the synchronised list |

## Left out

- HTTP, authentication of requests, JSON shapes, logging, metrics, mail, push and OAuth calls: plumbing; their results are parameters or arbitrary outcomes.
- Cryptography and the columns it protects: encryption is the identity; text columns that no decision reads (origin, notes, titles, bodies, departure times) are absent.
- Access-token expiry and the list of revoked access tokens: their clock tolerance belongs to a library.
- What a 64-bit overflow in the expense summary would do: `NoOverflowIffTotalFits` says when there is none.
- Carpool departure and origin validation: easy, and independent of seats and roles.
- Statement-level interleaving of declining an invitation: it takes no advisory lock, so it is one atomic transaction in `Carpools`.
- `Carpools.SerialRunsAreValid`: deleting an event is not a step; account deletion, which breaks the equality, is one in `CarpoolAccounts`.
- `CarpoolAccounts.NeverOverbooked`: deleting an event, which removes all its carpools with their passengers, is not a step here either.
- `CarpoolPool.DrainsIff`: the pool's acquire timeout is a rollback at any time; the other places that ask for a second connection inside a transaction (redeeming a share link, inviting by mail) are not modelled.
- The expense summary reads members and expenses with separate statements; the model takes them as one snapshot.
- Deleting a payment provider, and soft deletion of an event between the two statements of a patch.
- Concurrent reservations of one item: each takes the item's row lock first, so they are serial here.
- The order in which item handlers lock rows: no claim is made about waiting there.
- Redis failures and timeouts: a request that times out is a cancelled holder in `GeoGate` and a missing store in `GeoCache`.
- The parsing of provider answers and the 64 KiB body limit: easy, and separate from the gate.
- `GeoGate.SpacedIff`: Redis and the workers share one clock.
- Mixing the Redis limiter with its local fallback in one run, and calls that reach the bucket in another order than they read the clock: each path is modelled alone, with times that do not decrease.
- Filters of event lists (views, visibility, search text): a page is taken from the filtered snapshot. Trimming and lower-casing of the search text is a parameter.
- Rows that change between two pages, and the lists of carpools, expenses and friends: their page order differs from the key they resume from.
- Notification payloads, the rows that carpool handlers enqueue, and the deletion of a user's rows by cascade.
- `NOW()` of an enqueue inside a longer transaction is the start of that transaction; the model uses one time per statement.
- Unicode trimming and lower-casing of feature names: the model handles ASCII blanks and letters.
- Which playlist and payment links a provider accepts, and the schedule, place and deadline checks of events: parameters or absent; they do not depend on features.
- Configuration, catalogue management, avatars, devices, websockets, polls and QR codes: easy or plumbing.
