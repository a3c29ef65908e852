# Crawler queue and process repositories

This project models the two repository classes of the TYPO3 crawler:

- `QueueRepository` owns the work queue table `tx_crawler_queue`. Each row is one URL to crawl:
  - `scheduled`: not before this time;
  - `exec_time`: 0 until executed;
  - `process_id`: the worker lease holding the row;
  - `process_id_completed`: the worker that executed it.
- `ProcessRepository` owns the lease registry `tx_crawler_process`. Each row is one worker process with its `ttl`, its `active` and `deleted` flags and its `assigned_items_count`.

Most repository methods issue one SQL statement. Three do not: `getLimitFromItemCountAndOffset` only builds a string, `getTotalQueueEntriesByConfiguration([])` returns an empty result without a query, and `countUnprocessedItems` counts what `getUnprocessedItems` returns. The model replaces the database with an in-memory table, a sequence of rows in the store's natural order. WHERE clauses become row predicates, and `Filter`/`Count` are SELECT and `count(*)` over them.

- **Single-statement reads** are functions over the table.
- **Statements that change the table** are methods of a class that holds the rows:
  - `UPDATE` in `unsetQueueProcessId`;
  - `DELETE` in `removeByProcessId` and `deleteProcesses*`.
- **Readers that build a result in a `while ($row = fetch())` loop** are methods with a loop. For the GROUP BY readers, the grouping and the fetch loop are one loop over the table rows.
- **A fully fetched `ORDER BY … DESC`** (`findAll*`, `getLastProcessedEntries*`) is an insertion sort; `getAvailableSets` inserts each new group at its place in the descending order. The store does not order ties, so sorted results promise only order and permutation.
- **An `ORDER BY` read for its first row only** (`getLastInsertedQid`, `getFirstOrLastObjectByProcess`) is the maximum or minimum under that order, found by recursion over the table.
- **Reads without ORDER BY** return rows in table order.

Modules:

- `Wrappers`: `Option` and `Result`.
- `Tables`: `Filter`, `Count` and their laws.
- `Ordering`: descending order, insertion, and the "top k" property.
- `PhpValues`: PHP values and integer strings. It covers TYPO3's `MathUtility::canBeInterpretedAsInteger` and `filter_var(…, FILTER_VALIDATE_INT)` with and without the `min_range`/`default` options. An array fails that filter with `false` before `default` applies, and `false` becomes "" when joined into a string.
- `Queues`: the queue table and `QueueRepository`.
- `Processes`: the process table and `ProcessRepository`.

Ambient inputs are parameters:

- The PHP default arguments are Dafny default parameter values: `$limit = 100` of `getLastProcessedEntries*`, `$orderBySorting = 'ASC'` of `getFirstOrLastObjectByProcess`, and the `isPageInQueue` flags `true`, `false` and `false`. The `$timestamp = false` default is `None`.

- `time()` is `now`.
- The extension setting `processMaxRunTime` is a constant field of `ProcessRepository`, fixed when it is constructed.

Notes on the statements as the code writes them:

- `countAllPendingItems` filters on `process_scheduled = 0`, not on `process_id`.
- `countPendingItemsGroupedByConfigurationKey`, `getSetIdWithUnprocessedEntries` and `getTotalQueueEntriesByConfiguration` compare `scheduled < now` (strict). The three `countAll*PendingItems` use `scheduled <= now`.
- `unsetQueueProcessId` clears the lease on executed rows as well.
- `findAllTimedOut(t)` keeps the rows with `ttl > t`, whether or not they are deleted. `countNotTimeouted(t)` also requires `deleted = 0`.
- `getLastProcessedEntries*` does not filter on `exec_time`. Unexecuted rows (`exec_time = 0`) fill a short result.
- `'""'` in `countAllAssignedPendingItems` and `countAllUnassignedPendingItems` is read as MySQL's empty-string literal.

## Model

| member | source | states |
|---|---|---|
| Queues.GetLastInsertedQid | Classes/Domain/Repository/QueueRepository.php:69-79 | None exactly for an empty table; otherwise a `qid` of some row that no row's `qid` exceeds |
| Queues.CountAll | Classes/Domain/Repository/QueueRepository.php:154-163 | `countAll` is `count(*)` over the clause every row satisfies |
| Queues.CountAllPartition | Classes/Domain/Repository/QueueRepository.php:154-163 | `countAll` equals the unprocessed rows plus the processed rows |
| Queues.CountExecutedItemsByProcess | Classes/Domain/Repository/QueueRepository.php:172-185 | at most the table size; positive exactly when some row has `process_id_completed = p` and `exec_time > 0` |
| Queues.CountAllByProcessId | Classes/Domain/Repository/QueueRepository.php:192-204 | at most the table size; positive exactly when some row has `process_id = p` |
| Queues.CountNonExecutedItemsByProcess | Classes/Domain/Repository/QueueRepository.php:213-226 | at most the table size; positive exactly when some row has `process_id = p` and `exec_time = 0` |
| Queues.ExecutedAndNonExecutedDisjoint | Classes/Domain/Repository/QueueRepository.php:172-226 | executed-by and non-executed-by counts never share a row; non-executed rows are among those the lease holds |
| Queues.GetUnprocessedItems | Classes/Domain/Repository/QueueRepository.php:233-244 | every returned row has `exec_time = 0`, every such row is returned, and nothing else is |
| Queues.CountUnprocessedItems | Classes/Domain/Repository/QueueRepository.php:251-254 | the length of `getUnprocessedItems` is the number of rows with `exec_time = 0` |
| Queues.CountAllPendingItems | Classes/Domain/Repository/QueueRepository.php:262-276 | positive exactly when some row has `process_scheduled = 0`, `exec_time = 0` and `scheduled <= now` |
| Queues.UnclaimedPendingBounded | Classes/Domain/Repository/QueueRepository.php:262-276 | `countAllPendingItems` ≤ due unexecuted rows ≤ unprocessed rows |
| Queues.CountAllAssignedPendingItems | Classes/Domain/Repository/QueueRepository.php:284-298 | positive exactly when some due unexecuted row has a non-empty `process_id` |
| Queues.CountAllUnassignedPendingItems | Classes/Domain/Repository/QueueRepository.php:306-320 | positive exactly when some due unexecuted row has an empty `process_id` |
| Queues.PendingPartition | Classes/Domain/Repository/QueueRepository.php:284-320 | assigned plus unassigned pending equals all rows with `exec_time = 0` and `scheduled <= now` |
| Queues.PendingGroupsBounded | Classes/Domain/Repository/QueueRepository.php:327-341 | for each pending configuration the count is at least 1 and the assigned count is at most the count |
| Queues.CountPendingItemsGroupedByConfigurationKey | Classes/Domain/Repository/QueueRepository.php:327-341 | a group exists exactly for configurations with a row pending before `now`; `unprocessed` ≥ 1 and ≥ `assignedButUnprocessed` |
| Queues.GetFirstOrLastObjectByProcess | Classes/Domain/Repository/QueueRepository.php:129-147 | empty exactly when the process executed no row; otherwise an executed row of the process that comes first in the chosen `exec_time` order |
| Queues.FindYoungestEntryForProcess | Classes/Domain/Repository/QueueRepository.php:103-106 | the row has minimal `exec_time` among the process's executed rows |
| Queues.FindOldestEntryForProcess | Classes/Domain/Repository/QueueRepository.php:115-118 | the row has maximal `exec_time` among the process's executed rows |
| Queues.YoungestNotAfterOldest | Classes/Domain/Repository/QueueRepository.php:103-147 | both exist exactly when the executed count is positive; youngest `exec_time` ≤ oldest |
| Queues.IsPageInQueue | Classes/Domain/Repository/QueueRepository.php:492-519 | fails with InvalidArgument "Invalid parameter type" 1468931945 exactly when `uid` cannot be interpreted as an integer; otherwise the statement's count, at most the table size |
| Queues.IsPageInQueueNarrows | Classes/Domain/Repository/QueueRepository.php:505-509 | restricting to unprocessed rows never raises the count |
| Queues.IsPageInQueueIntegerString | Classes/Domain/Repository/QueueRepository.php:494 | a page id given as its decimal string is treated like the integer |
| Queues.IsPageInQueueAsWritten | Classes/Domain/Repository/QueueRepository.php:520-527 | as written, every valid `uid` yields true |
| Queues.IsPageInQueueAsWrittenOnEmptyQueue | Classes/Domain/Repository/QueueRepository.php:520-527 | on an empty queue the count is 0 yet the verdict as written is true |
| Queues.IsPageInQueueVerdict | Classes/Domain/Repository/QueueRepository.php:492-528 | the intended verdict: true exactly when some row matches the clause; same error as above |
| Queues.UnsetProcessId | Classes/Domain/Repository/QueueRepository.php:84-94 | the table keeps its length; each row holding the lease gets `process_id = ''` and every other row is unchanged |
| Queues.UnsetEmptiesLease | Classes/Domain/Repository/QueueRepository.php:84-94 | after the update no row is held by a non-empty lease `p` |
| Queues.UnsetReleasesDueWork | Classes/Domain/Repository/QueueRepository.php:84-94 | unassigned pending grows by exactly the due unexecuted rows the lease held |
| Queues.UnsetWithdrawsAssignedWork | Classes/Domain/Repository/QueueRepository.php:84-94 | assigned pending shrinks by exactly those rows |
| Queues.UnsetKeepsCompletions | Classes/Domain/Repository/QueueRepository.php:84-94 | executed-by counts and the unprocessed count are unchanged |
| Queues.UnsetIdempotent | Classes/Domain/Repository/QueueRepository.php:84-94 | running the update twice equals running it once |
| Queues.QueueRepository.UnsetQueueProcessId | Classes/Domain/Repository/QueueRepository.php:84-94 | the stored rows become the updated table: same length, lease-holding rows cleared, all others and all other columns untouched |
| Queues.QueueRepository.GetSetIdWithUnprocessedEntries | Classes/Domain/Repository/QueueRepository.php:350-366 | distinct set ids; an id is listed exactly when some row with it has `exec_time = 0` and `scheduled < now` |
| Queues.QueueRepository.GetTotalQueueEntriesByConfiguration | Classes/Domain/Repository/QueueRepository.php:376-405 | empty for no set ids; otherwise keys are exactly the configurations with a row in those sets scheduled before `now`, each mapped to its row count (≥ 1) |
| Queues.QueueRepository.GetLastProcessedEntriesTimestamps | Classes/Domain/Repository/QueueRepository.php:414-427 | min(limit, rows) values, descending, drawn from the `exec_time` column, none smaller than a value left out |
| Queues.QueueRepository.GetLastProcessedEntries | Classes/Domain/Repository/QueueRepository.php:437-450 | min(limit, rows) rows ordered by `exec_time` descending, drawn from the table, none with a smaller `exec_time` than a row left out |
| Queues.SummarizesAdd | Classes/Domain/Repository/QueueRepository.php:466 | adding a row of a group widens min/max to include it and adds one to the count |
| Queues.QueueRepository.GetPerformanceData | Classes/Domain/Repository/QueueRepository.php:461-480 | a key exactly for each `process_id_completed` with a row executed in [start, end]; start ≤ min ≤ max ≤ end; min/max are attained and bound the group; `urlcount` ≥ 1 is the group's row count |
| Queues.ListingInsert | Classes/Domain/Repository/QueueRepository.php:549-564 | a row of a new (`set_id`, `scheduled`) group adds a count-1 summary at its place in the descending order |
| Queues.ListingIncrement | Classes/Domain/Repository/QueueRepository.php:549-564 | a row of a listed group raises that group's count by one |
| Queues.QueueRepository.GetAvailableSets | Classes/Domain/Repository/QueueRepository.php:549-564 | one summary per distinct (`set_id`, `scheduled`) pair, none missing, counts equal to the pair's rows and ≥ 1, ordered by `scheduled` descending, counts summing to the table size |
| PhpValues.CanBeInterpretedAsInteger | Classes/Domain/Repository/QueueRepository.php:494 | a string passes exactly when it is the decimal form of some 64-bit integer, which is TYPO3's `(string)(int)$v === (string)$v`; null and arrays never pass |
| PhpValues.IntegerStringCast | Classes/Domain/Repository/QueueRepository.php:494 | the digit-level rule for integer strings agrees with "the decimal form of some 64-bit integer" in both directions |
| PhpValues.ParseFilterInt | Classes/Domain/Repository/ProcessRepository.php:261-262 | a string that FILTER_VALIDATE_INT accepts yields a 64-bit integer |
| PhpValues.ValidateInt | Classes/Domain/Repository/ProcessRepository.php:261-262 | FILTER_VALIDATE_INT without options yields only 64-bit integers |
| PhpValues.FilterValidateInt | Classes/Domain/Repository/ProcessRepository.php:261-262 | with `min_range` and `default`: `false` exactly for an array; a validated value ≥ `min_range` passes unchanged; any other scalar gives `default` |
| PhpValues.FilterResultToString | Classes/Domain/Repository/ProcessRepository.php:263 | `false` joins as "" and only `false` does; a non-negative integer joins as its decimal form |
| PhpValues.InterpretableIsValidInt | Classes/Domain/Repository/QueueRepository.php:494 | every value `canBeInterpretedAsInteger` accepts, FILTER_VALIDATE_INT accepts with the same integer |
| PhpValues.IntegerStringIsIntToString | Classes/Domain/Repository/QueueRepository.php:494 | an integer string is the decimal form of its value, which lies in the 64-bit range |
| Processes.CountActive | Classes/Domain/Repository/ProcessRepository.php:164-178 | at most the table size; positive exactly when some row has `active = 1` and `deleted = 0` |
| Processes.CountNotTimeouted | Classes/Domain/Repository/ProcessRepository.php:235-249 | at most the table size; positive exactly when some row has `deleted = 0` and `ttl > t` |
| Processes.NotTimeoutedWithinTtlAfter | Classes/Domain/Repository/ProcessRepository.php:121-141 | rows with `ttl > t` split into not-timed-out ones and deleted ones, so `countNotTimeouted(t)` ≤ `findAllTimedOut(t)` |
| Processes.GetActiveOrphanProcesses | Classes/Domain/Repository/ProcessRepository.php:213-226 | one identity per active row with `ttl <= now - processMaxRunTime` |
| Processes.OrphanMembership | Classes/Domain/Repository/ProcessRepository.php:213-226 | an identity is an orphan exactly when some active row with it has `ttl <= now - processMaxRunTime` |
| Processes.StaleNarrow | Classes/Domain/Repository/ProcessRepository.php:186-226 | under an earlier threshold the stale list is the earlier-threshold selection of the later-threshold rows, in order |
| Processes.StaleSubset | Classes/Domain/Repository/ProcessRepository.php:186-226 | an identity stale under an earlier threshold is stale under a later one |
| Processes.OlderThanOneHourAmongOrphans | Classes/Domain/Repository/ProcessRepository.php:186-226 | every identity older than one hour is also an orphan |
| Processes.GetLimitFromItemCountAndOffset | Classes/Domain/Repository/ProcessRepository.php:259-266 | without arrays the result is `"<offset>, <itemCount>"` for some offset ≥ 0 and item count ≥ 1; an array item count leaves `"<offset>, "`, an array offset leaves `", <itemCount>"`, two arrays leave `", "` |
| Processes.LimitPassesValidValues | Classes/Domain/Repository/ProcessRepository.php:259-266 | a valid item count ≥ 1 and a valid offset ≥ 0 pass through unchanged |
| Processes.LimitDefaultsItemCount | Classes/Domain/Repository/ProcessRepository.php:259-266 | a scalar item count that is invalid or below 1 becomes 20, and a valid offset `o` ≥ 0 stays: `"<o>, 20"` |
| Processes.LimitDefaultsOffset | Classes/Domain/Repository/ProcessRepository.php:259-266 | a scalar offset that is invalid or negative becomes 0, and a valid item count `c` ≥ 1 stays: `"0, <c>"` |
| Processes.LimitDefaultsBoth | Classes/Domain/Repository/ProcessRepository.php:259-266 | two scalars that both fail validation give `"0, 20"` |
| Processes.LimitArrayItemCount | Classes/Domain/Repository/ProcessRepository.php:259-266 | an array item count gives `"<o>, "` for a valid offset `o` ≥ 0 |
| Processes.LimitArrayOffset | Classes/Domain/Repository/ProcessRepository.php:259-266 | an array offset gives `", <c>"` for a valid item count `c` ≥ 1 |
| Processes.LimitArrayWithInvalid | Classes/Domain/Repository/ProcessRepository.php:259-266 | an array offset next to a failing scalar item count gives `", 20"`; an array item count next to a failing scalar offset gives `"0, "` |
| Processes.LimitOfInterpretableValues | Classes/Domain/Repository/ProcessRepository.php:259-266 | values TYPO3 reads as integers pass at their integer value |
| Processes.LimitClauseInjective | Classes/Domain/Repository/ProcessRepository.php:263 | the clause determines the offset and item count it was built from |
| Processes.DeleteRemovesMatches | Classes/Domain/Repository/ProcessRepository.php:148-157 | the surviving rows number the table minus the rows with that `process_id` |
| Processes.DeletesIdempotent | Classes/Domain/Repository/ProcessRepository.php:148-291 | each delete, run again, deletes nothing |
| Processes.DeleteMarkedKeepsCounts | Classes/Domain/Repository/ProcessRepository.php:282-291 | deleting rows marked deleted keeps the active count and every not-timed-out count |
| Processes.ProcessRepository.FindAll | Classes/Domain/Repository/ProcessRepository.php:71-88 | every row, sorted by `ttl` descending, as a permutation of the table |
| Processes.ProcessRepository.FindAllActive | Classes/Domain/Repository/ProcessRepository.php:93-114 | exactly the active non-deleted rows, sorted by `ttl` descending, as many as `countActive` |
| Processes.ProcessRepository.FindAllTimedOut | Classes/Domain/Repository/ProcessRepository.php:121-141 | exactly the rows with `ttl > t`, deleted or not, sorted by `ttl` descending; at least `countNotTimeouted(t)` of them |
| Processes.ProcessRepository.RemoveByProcessId | Classes/Domain/Repository/ProcessRepository.php:148-157 | rows with that `process_id` go, the others stay in order, and the count drops by the matches |
| Processes.ProcessRepository.GetActiveProcessesOlderThanOneHour | Classes/Domain/Repository/ProcessRepository.php:186-204 | the identities of active rows with `ttl <= now - processMaxRunTime - 3600`, in table order, each also an orphan |
| Processes.ProcessRepository.DeleteProcessesWithoutItemsAssigned | Classes/Domain/Repository/ProcessRepository.php:271-280 | rows with `assigned_items_count = 0` go, all others stay in order |
| Processes.ProcessRepository.DeleteProcessesMarkedAsDeleted | Classes/Domain/Repository/ProcessRepository.php:282-291 | rows with `deleted = 1` go, all others stay in order, and the active count is unchanged |

## Left out

- The TYPO3 `ConnectionPool`/`QueryBuilder` plumbing and the SQL text. Only the statements' meaning is modelled.
- `findByPageId` and `isPageInQueueTimed` are not modelled. The second would need PHP's `intval` on arbitrary values.
- Queues.IsPageInQueue: returns the count the statement fetches, not the boolean the method returns. The returned verdict appears only under "## Findings".
- Queues.CountPendingItemsGroupedByConfigurationKey: is a map keyed by configuration, because GROUP BY yields each configuration once. The order of the fetched group rows is not modelled.
- The order of GROUP BY results in `getSetIdWithUnprocessedEntries` is taken to be first occurrence in the table. The store promises no order there.
- Ties under ORDER BY are not resolved, because the store does not define their order. The sorted results promise order and permutation only.
- Queues.QueueRepository.GetLastProcessedEntriesTimestamps: takes a `nat` limit. A negative limit, which is an SQL error, is not modelled.
- Queues.QueueRepository.GetLastProcessedEntries: takes a `nat` limit for the same reason.
- Counts and fetched column values come back from the database driver as strings (or driver values), not PHP integers. They are modelled as numbers. This covers the `count(*)` results, `qid` from `fetchColumn` in `getLastInsertedQid`, `exec_time` in `getLastProcessedEntriesTimestamps`, `set_id`/`scheduled` in `getAvailableSets`, and the MIN/MAX of `getPerformanceData`.
- Store failures are not modelled. An `execute()` that throws (lost connection, lock timeout, SQL error) has no counterpart: every read and delete of the model is total.
- String comparisons are exact character equality. This covers `process_id = :p` in `unsetQueueProcessId`, `countAllByProcessId`, `countNonExecutedItemsByProcess` and `removeByProcessId`; `process_id_completed = :p` in `countExecutedItemsByProcess` and `getFirstOrLastObjectByProcess`; the `process_id` tests against ''; and the GROUP BY on `configuration` and `process_id_completed` behind `CountPendingItemsGroupedByConfigurationKey`, `GetTotalQueueEntriesByConfiguration` and `GetPerformanceData`. A store collation that ignores case or trailing spaces, as MySQL's defaults do, would also match or merge values that differ only that way (for example, releasing `'abc'` rows on `unsetQueueProcessId('ABC')`). The model does not capture that.
- Arguments are modelled with the types the statements compare them as:
  - `nextTimeout`, `ttl` and `processMaxRunTime` are integers, so `intval` on them is the identity;
  - `process_id` is a string;
  - the `isPageInQueue` flags are booleans;
  - `setIds` are integers. The source pastes any other element into the SQL text through `implode(',', $setIds)`, and that is not modelled.
- PHP floats and objects are not modelled for `canBeInterpretedAsInteger` or `filter_var`.
- `MathUtility::canBeInterpretedAsInteger` (TYPO3 core) and `filter_var` (PHP) are not part of this model's sources. They are modelled from their documented rules.
- `countAll` of `ProcessRepository` comes from `AbstractRepository`, which is not part of this model. `FindAll` states that it returns as many rows as the table holds.
- `getDB` (the deprecated global accessor) is not modelled.
- The `Process` and `Queue` model objects built from fetched rows are not part of this model. Rows stand for them.
- Concurrency between workers polling the same tables is not modelled. Each statement is one atomic step.
- The fixture-dependent counts of the tests are not modelled, because the fixtures are not part of this model.
- `removeProcessFromProcesslist`, `createResponseArray` and the `CrawlerController` operations exercised by the tests are not modelled, because they are not defined in the two repository classes.

## Findings

| source | as written | input that shows it | evidently intended | confidence | as-written member | corrected member |
|---|---|---|---|---|---|---|
| Classes/Domain/Repository/QueueRepository.php:520-527 | the fetched count is discarded and the query builder object is compared with 0, which PHP always finds greater, so any valid `uid` yields true | an empty queue with `uid = 1`: the statement counts 0 rows, yet the method returns true | true exactly when the statement counts at least one matching row | medium, not executed | Queues.IsPageInQueueAsWritten, Queues.IsPageInQueueAsWrittenOnEmptyQueue | Queues.IsPageInQueueVerdict |
