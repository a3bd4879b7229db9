# Price tracker: a verified model of its core

The price tracker watches product pages for its users. The core service keeps items, prices and alerts in
PostgreSQL; scrapers lease due items, look at the shop's page and report what they saw; alerts travel through
a Redis queue to notifiers, which send Telegram messages; a currency service converts prices with cached
tables of rates. This project models the parts of it that are hard to get right and proves what they promise.

| file | what it models |
|---|---|
| `Store.dfy`, `Repository.dfy` | the tables of the core service; every transaction as a function on them, and a class `Repo` whose methods update the tables in place and are proved equal to those functions |
| `Alerts.dfy` | which alerts an observation triggers, and their dedup keys |
| `Traces.dfy`, `Runs.dfy` | runs of operations in general, and runs of the core service: any mix of claims, observations, failures, changes, additions, deletions and registrations |
| `Scheduling.dfy` | leases and fairness over runs |
| `AlertRuns.dfy`, `DropRuns.dfy`, `StockRuns.dfy`, `FailureRuns.dfy` | when each kind of alert is returned, stated on the history of observations and not on the tables |
| `Effects.dfy` | what each operation does to the tables, told without the functions that define it |
| `Catalog.dfy` | table constraints, and which operation may change what |
| `Notifier.dfy`, `DeliveryBounds.dfy`, `DeliveryEnds.dfy` | the delivery protocol as a state machine over interleaved single steps |
| `Delivery.dfy` | the worker and attempt counter objects, proved to take the protocol's steps |
| `Pipeline.dfy` | the service and the notifiers in one run: from a returned alert to the end of its delivery |
| `Episodes.dfy` | two runs that show the consequences of permanent dedup keys |
| `Quota.dfy` | the item quota when additions overlap |
| `Scraping.dfy` | the price choice of one shop adapter and the request it leads to |
| `Rates.dfy` | fixed-point cross rates and conversion |
| `DomainMoney.dfy`, `ScraperMoney.dfy`, `Text.dfy` | the money parsers and the printer, and digit strings |
| `RateCache.dfy` | the rate table cache of any number of replicas |
| `HostSlots.dfy` | the per-host rate limiter and the retry loop |
| `Sessions.dfy` | the bot's conversation store |

How to read it:

* An operation of the core service is one atomic step, because each is one transaction that locks the rows it
  writes. The instant it happens is a parameter and never goes back. Fresh UUIDs are parameters too: new
  identifiers without a colon. Choices that SQL leaves open (which of several equally old items is claimed
  first, which of two snapshots with the same time is the latest, which rows another transaction has locked)
  are left open in the model.
* Table times are microseconds; durations given by callers, and all times of the cache, the rate limiter and
  the sessions, are nanoseconds.
* A step of the notifier is one operation on the queue, the claims, the counter or the sender. A crash, a
  shutdown in the middle of a message, a claim that cannot be released and a push that fails are all the step
  `Lose`, which drops the message and leaves the claim. A claim request that fails is the step `SendAnyway`, and
  a claim that reaches the end of its 24 hours the step `Expire`.
* Integers are unbounded except where the code can overflow: the parsers wrap around at 64 bits and the
  conversion refuses results that do not fit.

## Where the code and its own words differ

* A dedup key is permanent. A second drop to the same amount after a bounce is never reported while the item
  lives (`DropRuns.SameDropOnce`), although the comment at internal/core/alerts.go:77 says it is;
  `Episodes.BounceIsSilent` is a run in which such a drop is due and not returned.
* The key of a degraded scrape does not depend on the streak that caused it, so an item reports one in its
  whole life (`FailureRuns.DegradedExactlyOnce`; `Episodes.RelapseIsSilent` is a run with a silent second streak).
* The comment at internal/core/repo.go:148-150 says two concurrent additions cannot both slip past the limit of 25.
  They can, since the count takes no lock (`Quota.RaceExceeds`; `Quota.QuotaHoldsExactlyWhenSerial` says when not).
* Delivery is at most once only while claims work: a failed claim request, or a claim that expires after
  24 hours, can cost one duplicate each, and never more (`Notifier.AcceptedBound`, `Notifier.BoundIsMet`).
* `MaxAttempts` does not limit an alert without a dedup key: with two or more attempts allowed it can
  circulate for ever (`DeliveryEnds.KeylessCirculates`; `DeliveryEnds.EndsExactlyWhenLimited` says exactly when).
  With a key it cannot, and core's alerts all have one.
* Both readers of the scraper wrap around when rounding up the largest 64-bit amount
  (`ScraperMoney.DecimalAmountWraps`, `ScraperMoney.AmountWraps`). `ParseDecimalAmount` refuses a number without
  whole digits in a zero-decimal currency.
* A printed amount in a three-decimal currency cannot be read back when its whole part is between 1 and 999
  (`DomainMoney.PrintThenParse` says exactly when).
* For a zero-decimal currency a separator is not always grouping, as the comment at internal/scraper/money.go:158
  says: one or two digits behind it are a fraction and rounded away (`ScraperMoney.AmountExact`).
* The two text parsers differ on "1.234.56", which one reads as grouping and the other as a decimal
  (`ScraperMoney.TwoReadings`; `ScraperMoney.GroupedReadersAgree` says exactly where they agree).
* A lease shorter than a second is a lease of no time at all, since it is truncated to whole seconds.
* The check that reports a Wildberries product as "in stock but priced nowhere" can never be reached
  (`Scraping.AdapterToCore`).

## Model

| member | source | states |
|---|---|---|
| Repository.Repo.constructor | internal/core/repo.go:36-38 | a repository works on the tables it is given and changes nothing by being made |
| Repository.Repo.ClaimDueItems | internal/core/repo.go:347-410 | claims at most the limit of the due, unlocked items, earliest first and none left out while there is room, and changes nothing but their leases |
| Repository.Repo.LatestSnapshot | internal/core/pricing.go:365-376 | the result is a stored snapshot that none of the item's snapshots is newer than, or none if there are none |
| Repository.Repo.AllTimeMinimum | internal/core/pricing.go:381-393 | the loop finds the lowest amount the item ever had in that currency |
| Repository.Repo.PersistAlerts | internal/core/pricing.go:398-436 | the loop's table and returned alerts are those of the insert-if-new specification, whose meaning is `Store.PersistExact` |
| Repository.Repo.RecordSnapshot | internal/core/pricing.go:63-168 | the whole new state and the answer, for some newest earlier snapshot, in the accepted case and in every refused one |
| Repository.Repo.StoreObservation | internal/core/pricing.go:111-168 | one more row of history, the new alerts, and the item rescheduled with streak, error and lease cleared |
| Repository.Repo.RecordFailure | internal/core/pricing.go:173-214 | the whole new state after a failure and the alerts it returns, or no change for an unknown item |
| Repository.Repo.CreateItem | internal/core/repo.go:151-214 | the whole new state and the answer of an addition, with every way of refusing it |
| Repository.Repo.UpdateItem | internal/core/repo.go:276-333 | the whole new state and the answer of a change; only items are written |
| Repository.Repo.DeleteItem | internal/core/repo.go:336-345 | the item is gone with its history and its alerts, or nothing changed and the item was not the caller's |
| Effects.ClaimExact | internal/core/repo.go:347-360 | in every run a claim takes only items that are active, due and under no running lease, and leases them for the whole seconds asked for, 120 by default |
| Effects.ClaimComplete | internal/core/repo.go:347-387 | in every run a claim leaves out an item it could take only for a full batch of items due no later |
| Effects.PausedIsNeverClaimed | internal/core/repo.go:351-351 | after an accepted change that pauses an item, no claim in the run takes it before a change sets it active |
| Effects.SnapshotIsReport | internal/core/pricing.go:99-124 | in every run the snapshot stored for an accepted report says what was reported: availability, conversion, instant (now if none), and the price, or that of the newest earlier snapshot if none |
| Effects.DropForReport | internal/core/alerts.go:53-85 | in every run and for any observation times, a drop is returned exactly when the report offers the product at or below the target, in the shop's currency or converted, the newest earlier snapshot did not, and no drop was returned at that price before |
| Effects.ReportExact | internal/core/pricing.go:63-168 | a report is accepted exactly when it is proper, the item and its owner exist, and a missing price can be carried over; then the row is freed, cleared, rescheduled and titled, and the answer names the item and its owner's chat |
| Effects.ReportRefusal | internal/core/pricing.go:64-96 | what is wrong with a report in itself is told before an item that does not exist |
| Effects.FailureExact | internal/core/pricing.go:173-214 | a failure of a known item is counted, its reason kept up to 500 characters, its lease given up, and nothing else changes; the answer holds the new streak, the item and the chat |
| Effects.FailureWait | internal/core/pricing.go:192-201 | the wait after a failure lies between five minutes and six hours, and is the interval the first time |
| Effects.ChangeExact | internal/core/repo.go:276-333 | a change is accepted exactly from the owner and with proper values; each column then is the given one or the old one, and the next check moves only as the new interval demands |
| Effects.ChangedAsAsked | internal/core/repo.go:276-333 | in every run an accepted change leaves the row it asked for |
| Effects.AdditionExact | internal/core/repo.go:151-214 | the new item has the URL, target, title (cut to 120) and interval asked for, an hour by default, is active and due at once |
| Effects.AdditionRefusal | internal/core/repo.go:151-208 | which of the four refusals an addition meets, and in which order |
| Effects.DeletionExact | internal/core/repo.go:336-345 | a deletion succeeds exactly for the owner and removes the item, its history and its alerts, and nothing else |
| Effects.RegistrationExact | internal/core/repo.go:42-65 | afterwards the chat is registered, under the new identifier only if it was not before, and nobody else is affected |
| Store.EffectiveLimit | internal/core/repo.go:384-387 | a claim asks for as many items as the caller says if that is 1 to 500, and for 50 otherwise |
| Store.MinAmount | internal/core/pricing.go:381-393 | the amount is attained by a snapshot in that currency and none is lower; none exactly when there is no snapshot in it |
| Store.PersistExact | internal/core/pricing.go:398-436 | what is returned is exactly what was decided and not yet in the table; old rows stay, new rows are the returned ones |
| Store.BackoffGrows | internal/core/pricing.go:192-201 | the delay starts at the interval, doubles with each failure up to six hours and never shrinks within a streak |
| Runs.StepKeepsSound | internal/core/repo.go:151-410 | every operation keeps identifiers, intervals, owners and stored prices within what the tables promise |
| Runs.RunsAreSound | migrations/000001_init.up.sql:18-58 | so these constraints hold in every reachable state |
| Scheduling.StepKeepsHeld | internal/core/pricing.go:151-161 | no operation lets a claimed item be claimed again before its lease, or five minutes, is over, not even a late result that clears somebody else's lease |
| Scheduling.LeaseSpacing | internal/core/repo.go:347-370 | in every run two claims of one item are at least the first lease, or 300 s, apart |
| Scheduling.NothingOvertakes | internal/core/repo.go:276-290 | once the clock has passed d, the items scheduled at or before d only become fewer, exactly by those an operation finished |
| Scheduling.OvertakingBound | internal/core/repo.go:347-370 | claims that pass an item over use up, a full batch each, the items scheduled before it |
| Scheduling.BoundedOvertaking | internal/core/repo.go:347-410 | if batches are recorded before the next claim, a waiting item is taken within floor(N/limit)+1 claims |
| Alerts.DedupKeyInjective | internal/core/alerts.go:158-160 | equal keys mean equal kind, item and discriminator |
| Alerts.PriceTagInjective | internal/core/alerts.go:79-98 | the discriminator of a price alert determines amount and currency |
| Alerts.KeyIdentifies | internal/core/alerts.go:28-103 | alerts with one key agree in kind and item and, for price alerts, in price |
| Alerts.DecidedAreDistinct | internal/core/alerts.go:28-103 | one observation never yields two alerts of a kind, and all are about its item |
| Alerts.KeysAreSpelled | internal/core/alerts.go:80-98 | keys are kind, item and discriminator, the last being the snapshot of a stock alert and the price of a price alert |
| Alerts.DegradedKeyIsSpelled | internal/core/alerts.go:108-118 | the key of a degraded scrape names the item and the fifth failure |
| AlertRuns.RunsHaveSoundAlerts | internal/core/pricing.go:398-436 | in every run the alert table holds exactly the returned alerts of the items that still exist |
| AlertRuns.AllKeysDistinct | internal/core/pricing.go:415-435 | all alerts returned in a run, over all items and kinds, have different keys |
| AlertRuns.RunsHaveHistory | internal/core/pricing.go:99-147 | in every run the stored history of an item is the sequence of its accepted observations |
| AlertRuns.AllTimeLowExact | internal/core/alerts.go:89-100 | an observation returns an all-time low if and only if it is in stock and strictly below all earlier prices in its currency, of which there is one; dedup never suppresses it, and no order of times is needed |
| AlertRuns.LowsDecrease | internal/core/alerts.go:89-100 | the all-time lows returned for an item in one currency strictly decrease |
| AlertRuns.AlertsTellTruth | internal/core/alerts.go:28-103 | every returned alert is true of its observation and the history: the right direction of the stock change, a previous price that is the lowest ever, a price at or below the target after one above it, and the shop's own price when another currency is quoted |
| AlertRuns.AlertsInOrder | internal/core/alerts.go:25-103 | in every run the alerts of one observation come in the documented order: availability, target, all-time low |
| DropRuns.PriceDropInAnyOrder | internal/core/alerts.go:53-85 | over every run and whatever the observation times, a drop is returned at a price if and only if the product is available at that price at or below the target, the newest earlier snapshot did not already say so, and no drop of the item was returned at that price before |
| DropRuns.PriceDropExact | internal/core/alerts.go:53-85 | the same when observation times increase: the snapshot compared with is then the last one recorded |
| DropRuns.SameDropOnce | internal/core/alerts.go:77-80 | a drop to a price already reported is never reported again while the item lives |
| Episodes.BounceIsSilent | internal/core/alerts.go:77-80 | for every story and prices around the target there is a run (register, add, look three times) whose last observation is due to be reported as a drop and is not |
| StockRuns.StockFlipInAnyOrder | internal/core/alerts.go:33-46 | over every run and whatever the observation times, an observation returns a stock alert exactly for a change from the newest earlier snapshot, and of the right kind |
| StockRuns.StockAlertsAreFlips | internal/core/alerts.go:33-46 | with increasing observation times the stock alerts of an item are exactly its changes of availability, in order |
| StockRuns.StockAlertsAlternate | internal/core/alerts.go:33-46 | stock alerts of an item strictly alternate |
| StockRuns.CarryForwardIsNeutral | internal/core/pricing.go:99-128 | an observation without a price is out of stock and leaves the minimum in every currency as it was |
| FailureRuns.StreakIsCount | internal/core/pricing.go:173-214 | in every run the stored streak is the number of failures since the last stored snapshot |
| FailureRuns.FailureSchedules | internal/core/pricing.go:192-201 | a failure continues the counted streak, frees the item and schedules it after min(interval * 2^(streak-1), 6 h) |
| FailureRuns.DegradedExactlyOnce | internal/core/alerts.go:108-118 | over an item's life exactly one degraded-scrape alert if some streak reaches 5, none otherwise |
| FailureRuns.LaterStreaksAreSilent | internal/core/alerts.go:108-118 | once some streak of an item reached 5, no failure of it returns anything, in any run |
| Episodes.RelapseIsSilent | internal/core/pricing.go:173-214 | there is a run in which, after a success, a second streak reaches 5 and returns nothing |
| Catalog.RunsKeepCatalog | migrations/000001_init.up.sql:18-58 | in every run of atomic operations one item per user and URL, at most 25 per user, one user per chat, proper targets and bounded texts; what becomes of the 25 when additions overlap is `Quota.QuotaHoldsExactlyWhenSerial` |
| Quota.QuotaBound | internal/core/repo.go:151-214 | with at most k additions of a user under way at a time, the count and the insertion being separate statements, a user never has more than 24 + k items |
| Quota.RaceExceeds | internal/core/repo.go:172-181 | the bound is reached for every k: k additions that all count before any inserts |
| Quota.QuotaHoldsExactlyWhenSerial | internal/core/repo.go:148-181 | the quota of 25 holds in all runs if and only if a user has at most one addition under way at a time |
| Catalog.AddExact | internal/core/repo.go:151-214 | an addition succeeds if and only if it is proper, the user is known and below the quota and does not track the URL; the new item is due at once |
| Catalog.OwnersKept | internal/core/repo.go:276-333 | items never change owner or URL |
| Catalog.OtherItemsUntouched | internal/core/pricing.go:63-168 | an operation leaves row, history and alerts of every item it is not addressed to as they were |
| Catalog.RefusedChangesNothing | internal/core/repo.go:293-345 | a refused operation changes nothing, and one on another user's item is refused |
| Catalog.ScraperKeepsChoices | internal/core/pricing.go:63-214 | scraping never adds or removes items and never alters owner, URL, target, interval, activity or a title that is set |
| Catalog.UserKeepsRecords | internal/core/repo.go:276-290 | users' operations never alter lease, streak, error or history, and move a check only forward, to no earlier than five minutes from now |
| Catalog.ChangeIsIdempotent | internal/core/repo.go:276-333 | a change repeated at once adds nothing, and a change that names no field changes nothing |
| Catalog.ObservationSchedules | internal/core/pricing.go:151-161 | in every run an accepted observation frees its item, clears the streak and schedules the next check one interval after the recording |
| Notifier.StepKeepsExclusive | internal/notify/worker.go:132-201 | after any step, including a loss, a claim has at most one owner, a worker past the claim owns it, and settled keys stay claimed |
| Notifier.StepSpendsChances | internal/notify/worker.go:132-201 | no step adds to accepted sends plus live owners plus the claim being free, except that a failed claim request or an expired claim adds one |
| Notifier.AcceptedBound | internal/notify/worker.go:132-174 | in every run of any number of processes and workers, with duplicates, losses, failing claim requests and expiring claims at will, a key is accepted at most once more often than there was trouble with its claim |
| Notifier.AtMostOnce | internal/notify/worker.go:132-174 | a key whose claim requests never failed and whose claims never expired is accepted at most once, whatever happens to other keys |
| Notifier.BoundIsMet | internal/notify/worker.go:145-153 | the bound is exact: for every n, n failed claim requests alone, or n expired claims alone, can lead to n + 1 accepted sends |
| Notifier.NothingMadeUp | internal/notify/worker.go:111-201 | whatever is queued, held or sent was queued from outside, with the chat it is sent to |
| Notifier.QueueIsFifo | internal/notify/worker.go:111-201 | in every run messages leave the queue in the order they entered it, those put back included |
| Notifier.DoneIsForgotten | internal/notify/attempts.go:34-41 | a worker done with a message forgets its count in that process, and no other |
| Notifier.CountsOnlyFailures | internal/notify/attempts.go:20-30 | only a failed attempt counts, by one and for its own key and process; sending, skipping and putting back leave all counts alone |
| DeliveryBounds.AttemptsBounded | internal/notify/worker.go:155-183 | one process sends a key at most MaxAttempts times, although a settled key's counter is reset |
| DeliveryBounds.FinalAnswersAreFinal | internal/notify/worker.go:155-174 | without claim trouble, of several sends of a key all but the last were told to try again: what was delivered or refused for good is never sent once more, by any process |
| DeliveryBounds.NothingLost | internal/notify/worker.go:132-201 | without faults every key ever queued for somebody is settled, in the queue, or in a worker's hands; a skipped duplicate never was the last copy |
| DeliveryBounds.SettledForAReason | internal/notify/worker.go:155-201 | a key counts as settled only if the sender accepted or refused it or some process sent it as often as allowed |
| DeliveryBounds.RestIsSettled | internal/notify/worker.go:111-201 | when a fault-free run has come to rest, everything ever queued for somebody is settled for such a reason |
| DeliveryEnds.AllowanceShrinks | internal/notify/attempts.go:20-41 | no step gives a process new attempts at an unsettled key |
| DeliveryEnds.RetryUsesAllowance | internal/notify/worker.go:177-201 | every return to the queue uses up one attempt for good |
| DeliveryEnds.DeliveryEnds | internal/notify/worker.go:111-201 | from a state with limited alerts only, any interleaving makes at most a computed number of further steps |
| DeliveryEnds.KeylessCirculates | internal/notify/attempts.go:20-23 | a keyless alert returns to the very same state after one lap, as often as the sender refuses it |
| DeliveryEnds.EndsExactlyWhenLimited | internal/notify/worker.go:111-201 | the number of further steps is bounded if and only if there is no worker or every alert that may return to the queue has a key, no recipient, or a single attempt; otherwise there are runs of every length |
| DeliveryEnds.RunsAreOrderly | internal/notify/worker.go:132-143 | the states of that equivalence are those of every run without claim trouble |
| Delivery.AttemptCounter.constructor | internal/notify/attempts.go:15-17 | no key has been counted |
| Delivery.AttemptCounter.Next | internal/notify/attempts.go:20-30 | counts the key once more and returns the new number; without a key always 1 and nothing is kept |
| Delivery.AttemptCounter.Forget | internal/notify/attempts.go:34-41 | exactly that key's count is dropped |
| Delivery.KeyedAgrees | internal/notify/attempts.go:20-41 | a process's counter map and the protocol's counters agree, also after counting and forgetting |
| Delivery.CountAgrees | internal/notify/attempts.go:20-30 | counting in the process is counting in the protocol |
| Delivery.NextIsPossible | internal/notify/worker.go:132-201 | every step the object takes, in whatever trouble, is one the protocol allows |
| Delivery.Worker.constructor | internal/notify/worker.go:74-91 | a worker starts idle with nothing claimed or counted, and five attempts by default |
| Delivery.Worker.Deliver | internal/notify/worker.go:132-153 | handling a popped alert alone leads to the state that the protocol's single steps lead to, also when the claim request fails and the alert is sent anyway |
| Delivery.Worker.SendMessage | internal/notify/worker.go:155-174 | the same from the send on, for an accepted, a refused and a retryable answer, and when the process is stopping |
| Delivery.Worker.Requeue | internal/notify/worker.go:177-201 | the same from a retryable failure on: give up and forget, or release, pause and put back, also when the release fails, the pause is interrupted or the push fails |
| Delivery.Worker.CountAttempt | internal/notify/worker.go:177-183 | a failed attempt is counted, and another is allowed exactly as the protocol allows it |
| Delivery.Worker.PutBack | internal/notify/worker.go:184-201 | what is left of the claim and the queue after each way the return can fail |
| Pipeline.ReturnedAlertsAreDeliverable | internal/core/pricing.go:398-436 | every alert core returns in a run has a key and a registered owner, and equal keys mean the same alert |
| Pipeline.AlertsAreForOwners | internal/core/pricing.go:140-147 | an alert is for the owner of its item, who has a chat |
| Pipeline.HalvesAreRuns | internal/scraper/pool.go:242-258 | a run of service and notifiers together, in which only returned alerts are handed over, is a run of each |
| Pipeline.OnlyReturnedAreQueued | internal/scraper/pool.go:242-258 | at every moment everything ever queued is an alert core had returned, addressed to its owner |
| Pipeline.SendsCarryAlerts | internal/notify/worker.go:155-158 | whatever goes wrong, every message sent carries exactly one alert core returned, and goes to the chat of its owner |
| Pipeline.DeliveredAtMostOnce | internal/notify/worker.go:132-201 | in a run of service and notifiers together a returned alert is accepted at most once more often than its claim gave trouble; without trouble at most once, with at most MaxAttempts sends by each process |
| Pipeline.DeliveryComesToRest | internal/notify/worker.go:111-201 | without claim trouble the notifiers always have a bounded number of steps left until more is handed over |
| Pipeline.RestMeansEnded | internal/notify/worker.go:132-201 | when such a run without faults has come to rest, each alert handed over for a chat was accepted exactly once, refused, or sent exactly MaxAttempts times by one process |
| Scraping.BestPrice | internal/scraper/wildberries.go:153-194 | the lowest price of the sizes that can be bought, or failing that of those that have a price, and whether one can be bought |
| Scraping.AdapterReports | internal/scraper/wildberries.go:124-194 | the adapter reports stock exactly when a priced size is in stock, then the lowest price of those, else the lowest price there is, in roubles; the request to core says just that |
| Scraping.AdapterToCore | internal/scraper/wildberries.go:124-145 | the adapter always yields an observation, and core stores it unless no size has a price and there is no earlier snapshot |
| Rates.CrossBound | internal/currency/rates.go:60-88 | a derived rate is the exact ratio of the table rates to within half a unit of its last place |
| Rates.RateFromBaseExact | internal/currency/rates.go:90-99 | a currency has a rate exactly if it is the base, at one, or the table has a positive rate for it |
| Rates.CrossExact | internal/currency/rates.go:60-88 | there is a derived rate exactly between a currency and itself, or when both have rates and the rounded ratio is a positive 64-bit number |
| Rates.ApplyExact | internal/currency/rates.go:107-133 | a conversion of positive inputs succeeds exactly when the half-up value lies in [1, 2^63-1], returns it, and otherwise says which bound failed |
| Rates.ApplyRefuses | internal/currency/rates.go:107-113 | amounts and rates that are not positive are refused, each in its own way |
| Rates.ApplyMonotone | internal/currency/rates.go:107-133 | a larger amount at a better rate never converts to less |
| Rates.ApplyIdentity | internal/currency/rates.go:61-63 | converting a currency into itself changes nothing |
| Rates.TwoStageBound | internal/currency/rates.go:60-133 | rate derivation and conversion together err by at most 1/2 + amount * 10^(toExp-fromExp) / (2*10^8) |
| Rates.RateRoundTrip | internal/currency/rates.go:74-99 | 4ab * abs(cross(A,B)*cross(B,A) - S^2) <= 2S(a^2+b^2) + ab |
| Rates.PathIndependence | internal/currency/rates.go:74-99 | going through a third currency differs from the direct rate by at most (c/b + b/a)/2 + 1/(4S) + 1/2 |
| Rates.AmountRoundTrip | internal/currency/rates.go:60-133 | the error of converting an amount there and back, bounded by the rates and the decimal scales |
| DomainMoney.MinorUnits | internal/domain/money.go:42-53 | no decimals exactly for the eleven listed currencies, three exactly for the seven listed ones, two for all others |
| DomainMoney.ValidCurrency | internal/domain/money.go:75-85 | the loop accepts exactly the words of three capital letters A to Z |
| DomainMoney.Scale | internal/domain/money.go:56-62 | the loop computes ten to the number of decimals |
| DomainMoney.SplitPlainDecimal | internal/domain/money.go:164-204 | a plain decimal is split at its separator, or refused as ambiguous exactly when three digits follow one to three digits that do not begin with 0 |
| DomainMoney.ParsePlainDecimal | internal/domain/money.go:112-159 | an unambiguous decimal that fits 64 bits is read as its half-up value in minor units |
| DomainMoney.ParseGrouped | internal/domain/money.go:112-204 | how any text of digits and separators is read: ambiguous ones are refused, one separator repeated is grouping, otherwise the last is the decimal point; the outcome is the half-up value if it fits |
| DomainMoney.NormalizeSpelling | internal/domain/money.go:70-72 | exactly the spellings of a code in capital and small letters are taken for it |
| DomainMoney.CodeIsTrimmed | internal/domain/money.go:70-72 | white space around a code does not matter |
| DomainMoney.MoneyWithCode | internal/domain/money.go:89-110 | a number followed by a code in any spelling is that number in that currency, whatever the fallback and whatever white space and underscores there are |
| DomainMoney.OneWordWithCode | internal/domain/money.go:97-110 | for a number without spaces: it is read in the currency spelled after it |
| DomainMoney.GroupingIsSkipped | internal/domain/money.go:109-110 | a space, no-break space, narrow no-break space or underscore put anywhere into the number changes nothing |
| DomainMoney.MoneyInFallback | internal/domain/money.go:89-110 | a text that ends in a digit is read in the fallback currency, or refused when that is none |
| DomainMoney.GroupingIsSkippedInFallback | internal/domain/money.go:109-110 | the same four characters put into a number without a code change nothing either |
| DomainMoney.MoneyIsTrimmed | internal/domain/money.go:90-93 | white space around the text does not matter, and a text of white space is refused |
| DomainMoney.ParseWholeNumber | internal/domain/money.go:112-159 | digits alone are whole units, at any precision |
| DomainMoney.NegativeIsRefused | internal/domain/money.go:117-126 | a negative number is refused |
| DomainMoney.CodeAloneIsRefused | internal/domain/money.go:97-121 | a code without a number is refused, whatever the fallback |
| DomainMoney.GarbageIsRefused | internal/domain/money.go:117-126 | anything but digits and a sign in front spoils a whole number |
| DomainMoney.PrintThenParse | internal/domain/money.go:89-228 | a printed amount of at least 0 reads back as itself, except exactly the three-decimal amounts with whole part 1 to 999, which are refused as ambiguous |
| DomainMoney.PrintedForm | internal/domain/money.go:212-228 | an amount is printed as whole units without leading zeros and exactly as many decimals as the currency has, and these digits are the amount |
| DomainMoney.PrintedText | internal/domain/money.go:212-228 | a negative amount is a minus sign before the positive one; the code follows after a space |
| ScraperMoney.KeepNumeric | internal/scraper/money.go:136-150 | the loop keeps the digits and separators, in order |
| ScraperMoney.IsAllDigits | internal/scraper/money.go:208-215 | the loop decides whether a text has nothing but digits |
| ScraperMoney.FinishAmount | internal/scraper/money.go:98-132 | padding, cutting and rounding in place gives what `ScraperMoney.ToMinorIsHalfUp` says |
| ScraperMoney.ToMinorIsHalfUp | internal/scraper/money.go:98-132 | the digits are read as the half-up value, accepted exactly when it is positive and fits, except for one wrap-around |
| ScraperMoney.ParseAmount | internal/scraper/money.go:88-122 | the method agrees with its specification, whose meaning `ScraperMoney.AmountExact` and `ScraperMoney.AmountWithoutSeparator` give for every text |
| ScraperMoney.ParseDecimalAmount | internal/scraper/money.go:241-272 | the method agrees with its specification, whose meaning `ScraperMoney.DecimalAmountExact` gives |
| ScraperMoney.AmountExact | internal/scraper/money.go:88-206 | what any text with a separator is read as: only digits matter, and the last separator is the decimal point exactly before one or two digits, or three in a three-decimal currency |
| ScraperMoney.AmountWithoutSeparator | internal/scraper/money.go:88-206 | any text without separators is read as the whole number its digits spell |
| ScraperMoney.AmountReadsDigits | internal/scraper/money.go:159-206 | with one or two digits after the last separator, any text before it counts only through its digits |
| ScraperMoney.GroupingIsIrrelevant | internal/scraper/money.go:159-206 | grouping the whole part never changes what is read |
| ScraperMoney.DecimalAmountExact | internal/scraper/money.go:241-272 | for all digits I and F, "I.F" is read as floor(value * 10^exp + 1/2) when that is positive and fits; the exceptions are listed exactly |
| ScraperMoney.DecimalIsTrimmed | internal/scraper/money.go:241-245 | white space around the number does not matter |
| ScraperMoney.DecimalWithoutPoint | internal/scraper/money.go:241-272 | digits alone are a whole number |
| ScraperMoney.DecimalRefuses | internal/scraper/money.go:241-255 | an empty text, a second point, or anything but digits and a point is no price |
| ScraperMoney.DecimalAmountWraps | internal/scraper/money.go:126-132 | the wrap-around happens: an amount just too large is read as the most negative one |
| ScraperMoney.AmountWraps | internal/scraper/money.go:126-132 | the wrap-around happens to text off a page, too: 9223372036854775807.5 in a currency without decimals |
| ScraperMoney.ReadersAgree | internal/scraper/money.go:88-122 | on positive values with one or two fraction digits the three parsers agree at every precision |
| ScraperMoney.GroupedReadersAgree | internal/scraper/money.go:159-206 | for digits with any separators and a one or two digit tail, the two text parsers agree if and only if the amount is positive and not one separator is used throughout; if one is, ParseMoney reads strictly more |
| ScraperMoney.TwoReadings | internal/domain/money.go:185-191 | "1.234.56" is 12345600 minor units to the one and 123456 to the other |
| ScraperMoney.PrintThenReadAmount | internal/scraper/money.go:88-206 | every positive printed amount is recovered at every precision, and zero is refused |
| RateCache.Service.constructor | internal/currency/service.go:55-72 | a service starts without a usable table, with a lifetime of one hour by default |
| RateCache.Service.CurrentTable | internal/currency/service.go:115-148 | where the answer comes from, when the table and its age are renewed, and when the cache is written |
| RateCache.BoundedStaleness | internal/currency/service.go:115-148 | in every run of any number of replicas a served table was fetched less than cache lifetime + write delay + max(ttl, 24 h) before the request |
| RateCache.StaleServingDoesNotRenew | internal/currency/service.go:127-134 | serving from memory, also a stale table, extends neither its own life nor the cache entry's |
| RateCache.FreshMemoryAnswers | internal/currency/service.go:115-122 | a table in memory younger than its lifetime is the answer, and nothing is loaded or written |
| RateCache.SharedCacheAnswers | internal/currency/service.go:124-128 | otherwise a table in the shared cache is the answer and is loaded, without asking the provider |
| RateCache.ProviderAnswers | internal/currency/service.go:130-147 | otherwise the provider's table is the answer, is loaded and is to be written to the cache |
| RateCache.StaleOnlyAsLastResort | internal/currency/service.go:130-137 | a table past its lifetime is served from memory only if the cache missed and the provider failed, within 24 hours of its loading |
| RateCache.FailsExactlyWithoutSources | internal/currency/service.go:130-143 | a request fails exactly when the cache missed, the provider failed, and memory is empty or past both limits |
| RateCache.FreshWhileProviderIsUp | internal/currency/service.go:115-148 | in every run in which the provider answers whenever it is asked, a served table was fetched less than cache lifetime + write delay + ttl before the request |
| RateCache.PublishedIsShared | internal/currency/service.go:124-147 | what was written to the shared cache answers the requests of all replicas until it expires |
| RateCache.FetchSpacing | internal/currency/service.go:115-148 | in one process requests that fetched successfully are at least the lifetime apart, by the clock readings they started with, while tables are not empty |
| HostSlots.Client.constructor | internal/scraper/client.go:66-123 | no reservations, a gap of two seconds by default, no negative number of retries |
| HostSlots.Client.WaitForHost | internal/scraper/client.go:170-186 | reserves the first free instant of the host and leaves other hosts' reservations alone |
| HostSlots.Client.Fetch | internal/scraper/client.go:136-167 | one slot for each attempt that gets past its pause, pauses that double in 64 bits, and an end at the first answer that is not a temporary failure, at the last attempt, or where the caller cancels a pause or a wait |
| HostSlots.PausesDouble | internal/scraper/client.go:145-151 | the first pause is the gap and each next one twice the last, as long as that fits 64 bits |
| HostSlots.SlotsAreSpaced | internal/scraper/client.go:170-186 | whatever the interleaving and the clock readings, no slot is before its request, and each is immediate or exactly one gap after the host's last |
| HostSlots.SlotDistance | internal/scraper/client.go:170-186 | the i-th and j-th slots are at least (j-i) gaps apart |
| HostSlots.WindowBound | internal/scraper/client.go:170-186 | a window of length T holds at most floor(T/gap)+1 slots of a host |
| HostSlots.HostsAreIndependent | internal/scraper/client.go:170-186 | a host gets the slots it would get if no other host were asked for |
| Sessions.SessionStore.constructor | internal/bot/session.go:45-54 | an empty store, living fifteen minutes by default |
| Sessions.SessionStore.Get | internal/bot/session.go:57-67 | the live session or an idle one; an expired session is deleted and nothing else changes |
| Sessions.SessionStore.Set | internal/bot/session.go:70-76 | exactly that user's session is replaced, stamped with the present |
| Sessions.SessionStore.Reset | internal/bot/session.go:79-83 | exactly that user's session is gone |
| Sessions.SessionStore.Gc | internal/bot/session.go:86-99 | exactly the expired sessions are gone and their number is returned |
| Sessions.HistoryDecides | internal/bot/session.go:57-83 | what a user still has is the last session set, unless reset since or older than the lifetime; reads and collections leave no trace |
| Sessions.WhatIsDeleted | internal/bot/session.go:57-99 | a collection keeps exactly the sessions at most ttl old, and a read deletes at most the expired session of its user |
| Sessions.GcIsUnobservable | internal/bot/session.go:86-99 | a read answers the same whether the collector ever ran or not |

## Left out

- PostgreSQL, Redis, HTTP, HTML and JSON decoding, Telegram, gRPC mapping and configuration: library and I/O behaviour.
- Lock waits: an operation takes its instant when it runs, while PostgreSQL's now() is the start of the transaction.
- Catalog.RunsKeepCatalog: the 25-item quota in it is that of atomic additions; `Quota` has the exact bound for overlapping ones.
- Freshness of the `/stats` cache: the cache key that is deleted is not the one entries are stored under.
- Reading side of the core service (history, statistics, listing), users' settings and profiles: no state worth an invariant.
- Floating point: rates as decoded from the provider and percentage changes; the back-off is modelled in integers, which is exact for allowed intervals.
- URL normalisation, currency detection by substring and the titles' character encoding: a URL comes normalised or refused, and lengths count characters.
- Malformed numerals in `domain.ParseMoney`, such as letters or signs inside the number, and values beyond 64 bits: the theorems about its values speak of digits and separators that fit. Those about `scraper.ParseAmount` cover every text.
- Scheduling.BoundedOvertaking: speaks of claims with one limit, each batch settled before the next claim, and of an item that is not paused, deleted or locked meanwhile; overlapping batches of several scraper replicas are outside it.
- StockRuns.StockAlertsAreFlips: speaks of increasing observation times, since changes are counted between neighbours in the history; `StockRuns.StockFlipInAnyOrder` needs no order.
- DeliveryBounds.NothingLost: needs claims, releases and pushes that succeed, no shutdown, and messages handled within the 24 h life of a claim; with the step `Lose` a message can be lost, as the code says.
- DeliveryBounds.AttemptsBounded: speaks of runs without failed claim requests and expired claims, and so do the theorems on termination and on being settled.
- Notifier.AcceptedBound: a claimer is configured; without one, or with one that has no Redis behind it, nothing is deduplicated. A send that the sender reports as failed but that arrived is not counted as accepted.
- Delivery.Worker.Deliver: the object runs alone; what other workers do in between is in the state machine only.
- Pool.raise: pushing stops at the first failed push, so the remaining alerts of an observation are lost; the model lets a scraper hand over any of the alerts that core returned, and says nothing about those it does not.
- RateCache.BoundedStaleness: a cache write may arrive up to a stated delay after its fetch; with delay 0 the bound is cache lifetime + max(ttl, 24 h).
- HostSlots.Client.Fetch: the address is parsed already; a URL without a host is refused before the loop.
- RateCache.FailsExactlyWithoutSources: which error a failing request reports (an unsupported currency is told apart from an outage) is not modelled.
- 32-bit overflow of streaks and lease seconds, row identifiers and creation times of alerts: out of reach or unused.
- Negative amounts in printing: stored prices are never negative.
