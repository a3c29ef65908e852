/**
 * The crawl work queue, table `tx_crawler_queue`, and the statements its
 * repository issues against it. Every read is a function of the table;
 * `QueueRepository` holds the table and carries the one statement that
 * changes it and the reads that build their result row by row.
 */
module Queues {
  import opened Wrappers
  import opened Tables
  import opened Ordering
  import opened PhpValues

  /** One row of `tx_crawler_queue`. */
  datatype QueueRow = QueueRow(
    qid: int,                   // assigned by the store on insert
    pageId: int,
    setId: int,                 // groups the rows one crawl run created
    parameters: string,
    parametersHash: string,
    configuration: string,      // name of the crawl configuration
    configurationHash: string,
    scheduled: int,             // not to be run before this timestamp
    execTime: int,              // 0 while pending, else the completion time
    processId: string,          // the worker lease holding the row, "" if none
    processScheduled: int,      // 0 until a worker process has claimed the row
    processIdCompleted: string, // the worker that executed the row
    resultData: string)

  // ---------------------------------------------------------------------
  // WHERE clauses, exactly as the statements write them
  // ---------------------------------------------------------------------

  /** `process_id_completed = p AND exec_time > 0` */
  function ExecutedBy(processId: string): (clause: QueueRow -> bool) {
    (r: QueueRow) => r.processIdCompleted == processId && r.execTime > 0
  }

  /** `process_id = p` */
  function HeldBy(processId: string): (clause: QueueRow -> bool) {
    (r: QueueRow) => r.processId == processId
  }

  /** `process_id = p AND exec_time = 0` */
  function NotExecutedHeldBy(processId: string): (clause: QueueRow -> bool) {
    (r: QueueRow) => r.processId == processId && r.execTime == 0
  }

  /** `exec_time = 0` */
  function Unprocessed(): (clause: QueueRow -> bool) {
    (r: QueueRow) => r.execTime == 0
  }

  /** `exec_time <> 0` */
  function Processed(): (clause: QueueRow -> bool) {
    (r: QueueRow) => r.execTime != 0
  }

  /** `exec_time = 0 AND scheduled <= now`: due and not yet executed. */
  function Due(now: int): (clause: QueueRow -> bool) {
    (r: QueueRow) => r.execTime == 0 && r.scheduled <= now
  }

  /** `process_scheduled = 0 AND exec_time = 0 AND scheduled <= now` */
  function UnclaimedDue(now: int): (clause: QueueRow -> bool) {
    (r: QueueRow) => r.processScheduled == 0 && r.execTime == 0 && r.scheduled <= now
  }

  /** `process_id <> '' AND exec_time = 0 AND scheduled <= now` */
  function AssignedDue(now: int): (clause: QueueRow -> bool) {
    (r: QueueRow) => r.processId != "" && r.execTime == 0 && r.scheduled <= now
  }

  /** `process_id = '' AND exec_time = 0 AND scheduled <= now` */
  function UnassignedDue(now: int): (clause: QueueRow -> bool) {
    (r: QueueRow) => r.processId == "" && r.execTime == 0 && r.scheduled <= now
  }

  /** `process_id = p AND exec_time = 0 AND scheduled <= now`: due work a lease holds. */
  function HeldDue(processId: string, now: int): (clause: QueueRow -> bool) {
    (r: QueueRow) => r.processId == processId && r.execTime == 0 && r.scheduled <= now
  }

  /** `exec_time = 0 AND scheduled < now` (strict) */
  function PendingBefore(now: int): (clause: QueueRow -> bool) {
    (r: QueueRow) => r.execTime == 0 && r.scheduled < now
  }

  /** `exec_time = 0 AND scheduled < now`, within one configuration. */
  function PendingBeforeIn(now: int, configuration: string): (clause: QueueRow -> bool) {
    (r: QueueRow) => r.execTime == 0 && r.scheduled < now && r.configuration == configuration
  }

  /** The rows of one configuration group that `sum(process_id != '')` adds up. */
  function AssignedPendingBeforeIn(now: int, configuration: string): (clause: QueueRow -> bool) {
    (r: QueueRow) => r.processId != "" && r.execTime == 0 && r.scheduled < now && r.configuration == configuration
  }

  /** `set_id IN (setIds) AND scheduled < now` */
  function InSetsBefore(setIds: seq<int>, now: int): (clause: QueueRow -> bool) {
    (r: QueueRow) => r.setId in setIds && r.scheduled < now
  }

  /** `set_id IN (setIds) AND scheduled < now`, within one configuration. */
  function InSetsBeforeIn(setIds: seq<int>, now: int, configuration: string): (clause: QueueRow -> bool) {
    (r: QueueRow) => r.setId in setIds && r.scheduled < now && r.configuration == configuration
  }

  /** `exec_time <> 0 AND exec_time >= start AND exec_time <= end` */
  function InWindow(start: int, end: int): (clause: QueueRow -> bool) {
    (r: QueueRow) => r.execTime != 0 && start <= r.execTime <= end
  }

  /** The rows of one `process_id_completed` group of the performance statement. */
  function CompletedInWindow(start: int, end: int, processId: string): (clause: QueueRow -> bool) {
    (r: QueueRow) => r.execTime != 0 && start <= r.execTime <= end && r.processIdCompleted == processId
  }

  /** The rows of one (`set_id`, `scheduled`) group. */
  function InSet(setId: int, scheduled: int): (clause: QueueRow -> bool) {
    (r: QueueRow) => r.setId == setId && r.scheduled == scheduled
  }

  /** The clause `isPageInQueue` builds from its flags. */
  function PageQueued(pageId: int, unprocessedOnly: bool, timedOnly: bool, timestamp: Option<int>): (clause: QueueRow -> bool) {
    (r: QueueRow) => r.pageId == pageId
      && (unprocessedOnly ==> r.execTime == 0)
      && (timedOnly ==> r.scheduled != 0)
      && (timestamp.Some? ==> r.scheduled == timestamp.value)
  }

  // ---------------------------------------------------------------------
  // Reads that are one statement
  // ---------------------------------------------------------------------

  /**
   * `getLastInsertedQid`: the first `qid` of the table ordered by `qid`
   * descending, or `false` (None) when the table is empty.
   */
  function GetLastInsertedQid(table: seq<QueueRow>): (r: Option<int>)
    ensures r.None? <==> |table| == 0
    ensures r.Some? ==> exists i :: 0 <= i < |table| && table[i].qid == r.value
    ensures r.Some? ==> forall i :: 0 <= i < |table| ==> table[i].qid <= r.value
  {
    if |table| == 0 then None
    else
      var last := table[|table| - 1].qid;
      match GetLastInsertedQid(table[..|table| - 1])
      case None => Some(last)
      case Some(m) => Some(if last > m then last else m)
  }

  /** `countAll`: `count(*)` with no WHERE clause, that is, over a clause every row satisfies. */
  function CountAll(table: seq<QueueRow>): (n: nat)
    ensures n == Count(table, (r: QueueRow) => true)
  {
    CountTotal(table, (r: QueueRow) => true);
    |table|
  }

  /** `countExecutedItemsByProcess`: rows the process completed (by `process_id_completed`) with `exec_time > 0`. */
  function CountExecutedItemsByProcess(table: seq<QueueRow>, processId: string): (n: nat)
    ensures n <= |table|
    ensures n > 0 <==> exists i :: 0 <= i < |table| && table[i].processIdCompleted == processId && table[i].execTime > 0
  {
    CountPositive(table, ExecutedBy(processId));
    Count(table, ExecutedBy(processId))
  }

  /** `countAllByProcessId`: rows the lease holds (by `process_id`), executed or not. */
  function CountAllByProcessId(table: seq<QueueRow>, processId: string): (n: nat)
    ensures n <= |table|
    ensures n > 0 <==> exists i :: 0 <= i < |table| && table[i].processId == processId
  {
    CountPositive(table, HeldBy(processId));
    Count(table, HeldBy(processId))
  }

  /** `countNonExecutedItemsByProcess`: rows the lease holds (by `process_id`) with `exec_time = 0`. */
  function CountNonExecutedItemsByProcess(table: seq<QueueRow>, processId: string): (n: nat)
    ensures n <= |table|
    ensures n > 0 <==> exists i :: 0 <= i < |table| && table[i].processId == processId && table[i].execTime == 0
  {
    CountPositive(table, NotExecutedHeldBy(processId));
    Count(table, NotExecutedHeldBy(processId))
  }

  /** `getUnprocessedItems`: the rows not executed yet, in table order (the statement has no ORDER BY). */
  function GetUnprocessedItems(table: seq<QueueRow>): (items: seq<QueueRow>)
    ensures forall x :: x in items ==> x.execTime == 0
    ensures forall x :: x in table && x.execTime == 0 ==> x in items
    ensures multiset(items) <= multiset(table)
  {
    FilterMembers(table, Unprocessed());
    Filter(table, Unprocessed())
  }

  /** `countUnprocessedItems`: the length of `getUnprocessedItems`. */
  function CountUnprocessedItems(table: seq<QueueRow>): (n: nat)
    ensures n == Count(table, Unprocessed())
  {
    FilterCount(table, Unprocessed());
    |GetUnprocessedItems(table)|
  }

  /** `countAllPendingItems`: filters on `process_scheduled`, not on `process_id`. */
  function CountAllPendingItems(table: seq<QueueRow>, now: int): (n: nat)
    ensures n > 0 <==> exists i :: 0 <= i < |table| && table[i].execTime == 0 && table[i].scheduled <= now && table[i].processScheduled == 0
  {
    CountPositive(table, UnclaimedDue(now));
    Count(table, UnclaimedDue(now))
  }

  /** `countAllAssignedPendingItems`: due, unexecuted rows some lease holds. */
  function CountAllAssignedPendingItems(table: seq<QueueRow>, now: int): (n: nat)
    ensures n > 0 <==> exists i :: 0 <= i < |table| && table[i].execTime == 0 && table[i].scheduled <= now && table[i].processId != ""
  {
    CountPositive(table, AssignedDue(now));
    Count(table, AssignedDue(now))
  }

  /** `countAllUnassignedPendingItems`: due, unexecuted rows no lease holds. */
  function CountAllUnassignedPendingItems(table: seq<QueueRow>, now: int): (n: nat)
    ensures n > 0 <==> exists i :: 0 <= i < |table| && table[i].execTime == 0 && table[i].scheduled <= now && table[i].processId == ""
  {
    CountPositive(table, UnassignedDue(now));
    Count(table, UnassignedDue(now))
  }

  /** One result row of `countPendingItemsGroupedByConfigurationKey`. */
  datatype PendingGroup = PendingGroup(unprocessed: nat, assignedButUnprocessed: nat)

  /** The configurations that have a row pending before `now`. */
  function PendingConfigurations(table: seq<QueueRow>, now: int): (configurations: set<string>) {
    set r | r in table && PendingBefore(now)(r) :: r.configuration
  }

  lemma PendingGroupsBounded(table: seq<QueueRow>, now: int)
    ensures forall c :: c in PendingConfigurations(table, now) ==>
      1 <= Count(table, PendingBeforeIn(now, c)) &&
      Count(table, AssignedPendingBeforeIn(now, c)) <= Count(table, PendingBeforeIn(now, c))
  {
    forall c | c in PendingConfigurations(table, now)
      ensures 1 <= Count(table, PendingBeforeIn(now, c))
      ensures Count(table, AssignedPendingBeforeIn(now, c)) <= Count(table, PendingBeforeIn(now, c))
    {
      var r :| r in table && PendingBefore(now)(r) && r.configuration == c;
      var i :| 0 <= i < |table| && table[i] == r;
      CountPositive(table, PendingBeforeIn(now, c));
      CountMonotone(table, AssignedPendingBeforeIn(now, c), PendingBeforeIn(now, c));
    }
  }

  /**
   * `countPendingItemsGroupedByConfigurationKey`: per configuration with
   * rows pending before `now` (strict), the number of such rows and how
   * many of them a worker holds. Keyed by configuration, since GROUP BY
   * yields each configuration once.
   */
  function CountPendingItemsGroupedByConfigurationKey(table: seq<QueueRow>, now: int): (groups: map<string, PendingGroup>)
    ensures forall c :: c in groups <==> exists r :: r in table && PendingBefore(now)(r) && r.configuration == c
    ensures forall c :: c in groups ==> 1 <= groups[c].unprocessed
    ensures forall c :: c in groups ==> groups[c].assignedButUnprocessed <= groups[c].unprocessed
  {
    PendingGroupsBounded(table, now);
    map c | c in PendingConfigurations(table, now) ::
      PendingGroup(Count(table, PendingBeforeIn(now, c)), Count(table, AssignedPendingBeforeIn(now, c)))
  }

  /** The direction of the ORDER BY in `getFirstOrLastObjectByProcess`. */
  datatype Direction = Asc | Desc

  /** `x` comes before `y` in the given ordering of `exec_time`. */
  predicate Precedes(x: QueueRow, y: QueueRow, direction: Direction) {
    if direction == Asc then x.execTime <= y.execTime else x.execTime >= y.execTime
  }

  /**
   * `getFirstOrLastObjectByProcess`: the first row, in `exec_time` order of
   * the given direction, among the rows the process executed; None (the
   * empty object) when there is none. Ties are not resolved by the store,
   * so the contract admits any of the tied rows.
   */
  function GetFirstOrLastObjectByProcess(table: seq<QueueRow>, processId: string, direction: Direction := Asc): (r: Option<QueueRow>)
    ensures r.None? <==> forall x :: x in table ==> !ExecutedBy(processId)(x)
    ensures r.Some? ==> r.value in table && ExecutedBy(processId)(r.value)
    ensures r.Some? ==> forall x :: x in table && ExecutedBy(processId)(x) ==> Precedes(r.value, x, direction)
  {
    if |table| == 0 then None
    else
      var init, last := table[..|table| - 1], table[|table| - 1];
      assert table == init + [last];
      var best := GetFirstOrLastObjectByProcess(init, processId, direction);
      if !ExecutedBy(processId)(last) then best
      else if best.None? || !Precedes(best.value, last, direction) then Some(last)
      else best
  }

  /** `findYoungestEntryForProcess`: ascending `exec_time`. */
  function FindYoungestEntryForProcess(table: seq<QueueRow>, processId: string): (r: Option<QueueRow>)
    ensures r.Some? ==> r.value in table && r.value.processIdCompleted == processId && r.value.execTime > 0
    ensures r.Some? ==> forall x :: x in table && ExecutedBy(processId)(x) ==> r.value.execTime <= x.execTime
  {
    GetFirstOrLastObjectByProcess(table, processId, Asc)
  }

  /** `findOldestEntryForProcess`: descending `exec_time`. */
  function FindOldestEntryForProcess(table: seq<QueueRow>, processId: string): (r: Option<QueueRow>)
    ensures r.Some? ==> r.value in table && r.value.processIdCompleted == processId && r.value.execTime > 0
    ensures r.Some? ==> forall x :: x in table && ExecutedBy(processId)(x) ==> r.value.execTime >= x.execTime
  {
    GetFirstOrLastObjectByProcess(table, processId, Desc)
  }

  /** The error `isPageInQueue` throws. */
  datatype QueueError = InvalidArgument(message: string, code: int)

  /**
   * `isPageInQueue`, up to the count its statement fetches: a `uid` that
   * cannot be interpreted as an integer throws InvalidArgumentException
   * 1468931945; otherwise the statement counts the page's rows under the
   * optional filters. What the source then concludes from the statement
   * is not modelled.
   */
  function IsPageInQueue(table: seq<QueueRow>, uid: PhpValue, unprocessedOnly: bool := true, timedOnly: bool := false, timestamp: Option<int> := None): (r: Result<nat, QueueError>)
    ensures r.Failure? <==> !CanBeInterpretedAsInteger(uid)
    ensures r.Failure? ==> r.error == InvalidArgument("Invalid parameter type", 1468931945)
    ensures r.Success? ==> r.value <= |table|
  {
    if !CanBeInterpretedAsInteger(uid) then Failure(InvalidArgument("Invalid parameter type", 1468931945))
    else Success(Count(table, PageQueued(IntegerValue(uid), unprocessedOnly, timedOnly, timestamp)))
  }

  // ---------------------------------------------------------------------
  // The UPDATE of `unsetQueueProcessId`
  // ---------------------------------------------------------------------

  /** One row under `SET process_id = '' WHERE process_id = p`. */
  function ClearProcessId(r: QueueRow, processId: string): (cleared: QueueRow) {
    if r.processId == processId then r.(processId := "") else r
  }

  /** The table after `UPDATE ... SET process_id = '' WHERE process_id = p`; `exec_time` plays no part. */
  function UnsetProcessId(table: seq<QueueRow>, processId: string): (updated: seq<QueueRow>)
    ensures |updated| == |table|
    ensures forall i :: 0 <= i < |table| ==> updated[i] == ClearProcessId(table[i], processId)
  {
    if |table| == 0 then []
    else UnsetProcessId(table[..|table| - 1], processId) + [ClearProcessId(table[|table| - 1], processId)]
  }

  lemma UnsetProcessIdPrefix(table: seq<QueueRow>, processId: string)
    requires |table| > 0
    ensures UnsetProcessId(table, processId)[..|table| - 1] == UnsetProcessId(table[..|table| - 1], processId)
    ensures UnsetProcessId(table, processId)[|table| - 1] == ClearProcessId(table[|table| - 1], processId)
  {
  }

  /** After the update the lease holds no row (the lease "" keeps its rows, which already hold no lease). */
  lemma {:induction false} UnsetEmptiesLease(table: seq<QueueRow>, processId: string)
    requires processId != ""
    ensures CountAllByProcessId(UnsetProcessId(table, processId), processId) == 0
  {
    if |table| > 0 {
      UnsetProcessIdPrefix(table, processId);
      UnsetEmptiesLease(table[..|table| - 1], processId);
    }
  }

  /**
   * Releasing a lease turns its due, unexecuted rows into unassigned ones:
   * the unassigned pending count grows by exactly the rows the lease held.
   */
  lemma {:induction false} UnsetReleasesDueWork(table: seq<QueueRow>, processId: string, now: int)
    requires processId != ""
    ensures CountAllUnassignedPendingItems(UnsetProcessId(table, processId), now)
         == CountAllUnassignedPendingItems(table, now) + Count(table, HeldDue(processId, now))
  {
    if |table| > 0 {
      UnsetProcessIdPrefix(table, processId);
      UnsetReleasesDueWork(table[..|table| - 1], processId, now);
    }
  }

  /** The released due rows leave the assigned pending count. */
  lemma {:induction false} UnsetWithdrawsAssignedWork(table: seq<QueueRow>, processId: string, now: int)
    requires processId != ""
    ensures CountAllAssignedPendingItems(UnsetProcessId(table, processId), now) + Count(table, HeldDue(processId, now))
         == CountAllAssignedPendingItems(table, now)
  {
    if |table| > 0 {
      UnsetProcessIdPrefix(table, processId);
      UnsetWithdrawsAssignedWork(table[..|table| - 1], processId, now);
    }
  }

  /** The update touches neither the executed-by counts nor the unprocessed count. */
  lemma {:induction false} UnsetKeepsCompletions(table: seq<QueueRow>, processId: string, other: string)
    ensures CountExecutedItemsByProcess(UnsetProcessId(table, processId), other) == CountExecutedItemsByProcess(table, other)
    ensures CountUnprocessedItems(UnsetProcessId(table, processId)) == CountUnprocessedItems(table)
  {
    if |table| > 0 {
      UnsetProcessIdPrefix(table, processId);
      UnsetKeepsCompletions(table[..|table| - 1], processId, other);
    }
  }

  /** Running the update twice leaves the table as running it once. */
  lemma UnsetIdempotent(table: seq<QueueRow>, processId: string)
    ensures UnsetProcessId(UnsetProcessId(table, processId), processId) == UnsetProcessId(table, processId)
  {
    var once := UnsetProcessId(table, processId);
    var twice := UnsetProcessId(once, processId);
    forall i | 0 <= i < |table| ensures twice[i] == once[i] {
      assert once[i] == ClearProcessId(table[i], processId);
    }
  }

  // ---------------------------------------------------------------------
  // Properties of the reads
  // ---------------------------------------------------------------------

  /** Every row is either unprocessed or processed: `countAll` is the sum of the two. */
  lemma CountAllPartition(table: seq<QueueRow>)
    ensures CountAll(table) == CountUnprocessedItems(table) + Count(table, Processed())
  {
    var every := (r: QueueRow) => true;
    CountPartition(table, every, Unprocessed(), Processed());
    CountTotal(table, every);
  }

  /** Due, unexecuted rows are either assigned to a lease or not: the two counts partition them. */
  lemma {:induction false} PendingPartition(table: seq<QueueRow>, now: int)
    ensures CountAllAssignedPendingItems(table, now) + CountAllUnassignedPendingItems(table, now)
         == Count(table, Due(now))
  {
    CountPartition(table, Due(now), AssignedDue(now), UnassignedDue(now));
  }

  /** `countAllPendingItems` (claimed-by-process flag) never exceeds the due, unexecuted rows. */
  lemma {:induction false} UnclaimedPendingBounded(table: seq<QueueRow>, now: int)
    ensures CountAllPendingItems(table, now) <= Count(table, Due(now))
    ensures Count(table, Due(now)) <= CountUnprocessedItems(table)
  {
    CountMonotone(table, UnclaimedDue(now), Due(now));
    CountMonotone(table, Due(now), Unprocessed());
  }

  /**
   * A process's executed rows (by `process_id_completed`) and the
   * unexecuted rows it holds (by `process_id`) never share a row, and
   * the unexecuted ones are among the rows it holds.
   */
  lemma {:induction false} ExecutedAndNonExecutedDisjoint(table: seq<QueueRow>, processId: string)
    ensures CountExecutedItemsByProcess(table, processId) + CountNonExecutedItemsByProcess(table, processId) <= |table|
    ensures CountNonExecutedItemsByProcess(table, processId) <= CountAllByProcessId(table, processId)
  {
    var either := (r: QueueRow) => ExecutedBy(processId)(r) || NotExecutedHeldBy(processId)(r);
    CountPartition(table, either, ExecutedBy(processId), NotExecutedHeldBy(processId));
    CountMonotone(table, NotExecutedHeldBy(processId), HeldBy(processId));
  }

  /**
   * The youngest and oldest entries exist exactly when the process has an
   * executed row, and the youngest was not executed after the oldest.
   */
  lemma {:induction false} YoungestNotAfterOldest(table: seq<QueueRow>, processId: string)
    ensures FindYoungestEntryForProcess(table, processId).Some? <==> CountExecutedItemsByProcess(table, processId) > 0
    ensures FindOldestEntryForProcess(table, processId).Some? <==> CountExecutedItemsByProcess(table, processId) > 0
    ensures FindYoungestEntryForProcess(table, processId).Some? ==>
      FindYoungestEntryForProcess(table, processId).value.execTime <= FindOldestEntryForProcess(table, processId).value.execTime
  {
    CountPositive(table, ExecutedBy(processId));
    if CountExecutedItemsByProcess(table, processId) > 0 {
      var i :| 0 <= i < |table| && ExecutedBy(processId)(table[i]);
      assert table[i] in table;
    }
  }

  /** Restricting `isPageInQueue` to unprocessed rows never raises the count. */
  lemma {:induction false} IsPageInQueueNarrows(table: seq<QueueRow>, uid: PhpValue, timedOnly: bool, timestamp: Option<int>)
    requires CanBeInterpretedAsInteger(uid)
    ensures IsPageInQueue(table, uid, true, timedOnly, timestamp).value <= IsPageInQueue(table, uid, false, timedOnly, timestamp).value
  {
    var id := IntegerValue(uid);
    CountMonotone(table, PageQueued(id, true, timedOnly, timestamp), PageQueued(id, false, timedOnly, timestamp));
  }

  /** A page id given as its decimal string is the same argument as the integer itself. */
  lemma {:induction false} IsPageInQueueIntegerString(table: seq<QueueRow>, uid: PhpInteger, unprocessedOnly: bool, timedOnly: bool, timestamp: Option<int>)
    ensures IsPageInQueue(table, PhpString(IntToString(uid)), unprocessedOnly, timedOnly, timestamp)
         == IsPageInQueue(table, PhpInt(uid), unprocessedOnly, timedOnly, timestamp)
  {
    IntToStringIsIntegerString(uid);
  }

  /**
   * The verdict `isPageInQueue` returns as the code is written: the fetched
   * count is discarded and the statement object itself is compared with 0.
   * PHP orders an object above any integer, so the comparison always holds
   * and every valid `uid` yields true.
   */
  function IsPageInQueueAsWritten(table: seq<QueueRow>, uid: PhpValue, unprocessedOnly: bool := true, timedOnly: bool := false, timestamp: Option<int> := None): (r: Result<bool, QueueError>)
    ensures r.Failure? <==> !CanBeInterpretedAsInteger(uid)
    ensures r.Success? ==> r.value
  {
    match IsPageInQueue(table, uid, unprocessedOnly, timedOnly, timestamp)
    case Failure(e) => Failure(e)
    case Success(_) => Success(true)
  }

  /** `isPageInQueue(1)` with its default flags on an empty queue: the statement counts no row, yet the page is reported as queued. */
  lemma IsPageInQueueAsWrittenOnEmptyQueue()
    ensures IsPageInQueue([], PhpInt(1)) == Success(0)
    ensures IsPageInQueueAsWritten([], PhpInt(1)) == Success(true)
  {
  }

  /** The intended verdict of `isPageInQueue`: true exactly when the statement counts a matching row. */
  function IsPageInQueueVerdict(table: seq<QueueRow>, uid: PhpValue, unprocessedOnly: bool := true, timedOnly: bool := false, timestamp: Option<int> := None): (r: Result<bool, QueueError>)
    ensures r.Failure? <==> !CanBeInterpretedAsInteger(uid)
    ensures r.Failure? ==> r.error == InvalidArgument("Invalid parameter type", 1468931945)
    ensures r.Success? ==> (r.value <==> exists i :: 0 <= i < |table| && PageQueued(IntegerValue(uid), unprocessedOnly, timedOnly, timestamp)(table[i]))
  {
    match IsPageInQueue(table, uid, unprocessedOnly, timedOnly, timestamp)
    case Failure(e) => Failure(e)
    case Success(n) =>
      CountPositive(table, PageQueued(IntegerValue(uid), unprocessedOnly, timedOnly, timestamp));
      Success(n > 0)
  }

  // ---------------------------------------------------------------------
  // Results built row by row
  // ---------------------------------------------------------------------

  /** `exec_time` of every row, in table order: the column `getLastProcessedEntriesTimestamps` selects. */
  function ExecTimes(table: seq<QueueRow>): (times: seq<int>)
    ensures |times| == |table|
    ensures forall i :: 0 <= i < |table| ==> times[i] == table[i].execTime
  {
    if |table| == 0 then [] else ExecTimes(table[..|table| - 1]) + [table[|table| - 1].execTime]
  }

  function ExecTimeOf(r: QueueRow): (t: int) { r.execTime }

  function Identity(x: int): (y: int) { x }

  function Min(a: int, b: int): (m: int) { if a <= b then a else b }

  function Max(a: int, b: int): (m: int) { if a >= b then a else b }

  /** One result row of `getPerformanceData`, under the key `process_id_completed`. */
  datatype Performance = Performance(start: int, end: int, urlcount: nat)

  /**
   * `p` is the aggregate `min(exec_time), max(exec_time), count(*)` of the
   * rows of `table` that `processId` completed inside [start, end].
   */
  predicate Summarizes(p: Performance, table: seq<QueueRow>, start: int, end: int, processId: string) {
    && p.urlcount == Count(table, CompletedInWindow(start, end, processId))
    && p.urlcount >= 1
    && start <= p.start <= p.end <= end
    && (exists j :: 0 <= j < |table| && CompletedInWindow(start, end, processId)(table[j]) && table[j].execTime == p.start)
    && (exists j :: 0 <= j < |table| && CompletedInWindow(start, end, processId)(table[j]) && table[j].execTime == p.end)
    && (forall j :: 0 <= j < |table| && CompletedInWindow(start, end, processId)(table[j]) ==> p.start <= table[j].execTime <= p.end)
  }

  /** A row of another group leaves an aggregate as it is. */
  lemma SummarizesOther(p: Performance, table: seq<QueueRow>, x: QueueRow, start: int, end: int, processId: string)
    requires Summarizes(p, table, start, end, processId)
    requires !CompletedInWindow(start, end, processId)(x)
    ensures Summarizes(p, table + [x], start, end, processId)
  {
    FilterSnoc(table, x, CompletedInWindow(start, end, processId));
    var t := table + [x];
    var a :| 0 <= a < |table| && CompletedInWindow(start, end, processId)(table[a]) && table[a].execTime == p.start;
    var b :| 0 <= b < |table| && CompletedInWindow(start, end, processId)(table[b]) && table[b].execTime == p.end;
    assert t[a] == table[a] && t[b] == table[b];
  }

  /** A row of the group widens the aggregate to include it. */
  lemma SummarizesAdd(p: Performance, table: seq<QueueRow>, x: QueueRow, start: int, end: int, processId: string)
    requires Summarizes(p, table, start, end, processId)
    requires CompletedInWindow(start, end, processId)(x)
    ensures Summarizes(Performance(Min(p.start, x.execTime), Max(p.end, x.execTime), p.urlcount + 1), table + [x], start, end, processId)
  {
    FilterSnoc(table, x, CompletedInWindow(start, end, processId));
    var t := table + [x];
    var a :| 0 <= a < |table| && CompletedInWindow(start, end, processId)(table[a]) && table[a].execTime == p.start;
    var b :| 0 <= b < |table| && CompletedInWindow(start, end, processId)(table[b]) && table[b].execTime == p.end;
    assert t[a] == table[a] && t[b] == table[b] && t[|table|] == x;
  }

  /** The first row of a group starts its aggregate. */
  lemma SummarizesFirst(table: seq<QueueRow>, x: QueueRow, start: int, end: int, processId: string)
    requires Count(table, CompletedInWindow(start, end, processId)) == 0
    requires CompletedInWindow(start, end, processId)(x)
    ensures Summarizes(Performance(x.execTime, x.execTime, 1), table + [x], start, end, processId)
  {
    var P := CompletedInWindow(start, end, processId);
    var t := table + [x];
    assert Count(t, P) == 1 by {
      FilterSnoc(table, x, P);
    }
    assert forall j :: 0 <= j < |table| ==> !P(table[j]) by {
      CountPositive(table, P);
    }
    assert forall j :: 0 <= j < |t| && P(t[j]) ==> j == |table| by {
      assert forall j :: 0 <= j < |table| ==> t[j] == table[j];
    }
    assert t[|table|] == x;
  }

  /**
   * `perf` is the result of `getPerformanceData` on `table`: a key for each
   * `process_id_completed` with a row executed inside [start, end], holding
   * that group's aggregate.
   */
  ghost predicate IsPerformanceData(perf: map<string, Performance>, table: seq<QueueRow>, start: int, end: int) {
    && (forall p :: p in perf <==> exists j :: 0 <= j < |table| && InWindow(start, end)(table[j]) && table[j].processIdCompleted == p)
    && (forall p :: p in perf ==> Summarizes(perf[p], table, start, end, p))
  }

  /** A row outside the window changes no group. */
  lemma PerformanceSkip(perf: map<string, Performance>, table: seq<QueueRow>, x: QueueRow, start: int, end: int)
    requires IsPerformanceData(perf, table, start, end)
    requires !InWindow(start, end)(x)
    ensures IsPerformanceData(perf, table + [x], start, end)
  {
    var t := table + [x];
    assert forall j :: 0 <= j < |table| ==> t[j] == table[j];
    forall q | q in perf ensures Summarizes(perf[q], t, start, end, q) {
      SummarizesOther(perf[q], table, x, start, end, q);
    }
  }

  /** A row inside the window updates its own group and no other. */
  lemma PerformanceUpdate(perf: map<string, Performance>, table: seq<QueueRow>, x: QueueRow, start: int, end: int, g: Performance)
    requires IsPerformanceData(perf, table, start, end)
    requires InWindow(start, end)(x)
    requires Summarizes(g, table + [x], start, end, x.processIdCompleted)
    ensures IsPerformanceData(perf[x.processIdCompleted := g], table + [x], start, end)
  {
    var t := table + [x];
    var updated := perf[x.processIdCompleted := g];
    assert forall j :: 0 <= j < |table| ==> t[j] == table[j];
    assert t[|table|] == x;
    forall q | q in updated ensures Summarizes(updated[q], t, start, end, q) {
      if q != x.processIdCompleted {
        SummarizesOther(perf[q], table, x, start, end, q);
      }
    }
  }

  /** One result row of `getAvailableSets`. */
  datatype SetSummary = SetSummary(countValue: nat, setId: int, scheduled: int)

  function ScheduledOf(s: SetSummary): (t: int) { s.scheduled }

  /** `count_value` summed over a listing. */
  function Total(sets: seq<SetSummary>): (total: nat) {
    if |sets| == 0 then 0 else Total(sets[..|sets| - 1]) + sets[|sets| - 1].countValue
  }

  lemma {:induction false} TotalConcat(a: seq<SetSummary>, b: seq<SetSummary>)
    ensures Total(a + b) == Total(a) + Total(b)
  {
    if |b| > 0 {
      var init := b[..|b| - 1];
      assert (a + b)[..|a + b| - 1] == a + init;
      TotalConcat(a, init);
    } else {
      assert a + b == a;
    }
  }

  lemma TotalIncrement(sets: seq<SetSummary>, j: nat)
    requires j < |sets|
    ensures Total(sets[j := sets[j].(countValue := sets[j].countValue + 1)]) == Total(sets) + 1
  {
    var r := sets[j := sets[j].(countValue := sets[j].countValue + 1)];
    assert sets == sets[..j] + [sets[j]] + sets[j + 1..];
    assert r == sets[..j] + [r[j]] + sets[j + 1..];
    TotalConcat(sets[..j] + [sets[j]], sets[j + 1..]);
    TotalConcat(sets[..j], [sets[j]]);
    TotalConcat(sets[..j] + [r[j]], sets[j + 1..]);
    TotalConcat(sets[..j], [r[j]]);
  }

  /** Two summaries name the same (`set_id`, `scheduled`) group. */
  predicate SameGroup(a: SetSummary, b: SetSummary) {
    a.setId == b.setId && a.scheduled == b.scheduled
  }

  /** Some summary of `sets` names the group (`setId`, `scheduled`). */
  predicate Lists(sets: seq<SetSummary>, setId: int, scheduled: int) {
    exists a :: 0 <= a < |sets| && sets[a].setId == setId && sets[a].scheduled == scheduled
  }

  /**
   * `sets` is the result of `getAvailableSets` on `table`: one summary per
   * distinct (`set_id`, `scheduled`) pair, counting that pair's rows,
   * ordered by `scheduled` descending, the counts adding up to the table.
   */
  predicate IsSetListing(sets: seq<SetSummary>, table: seq<QueueRow>) {
    && SortedDesc(sets, ScheduledOf)
    && (forall a, b :: 0 <= a < b < |sets| ==> !SameGroup(sets[a], sets[b]))
    && (forall a :: 0 <= a < |sets| ==> sets[a].countValue == Count(table, InSet(sets[a].setId, sets[a].scheduled)))
    && (forall a :: 0 <= a < |sets| ==> sets[a].countValue >= 1)
    && (forall j :: 0 <= j < |table| ==> Lists(sets, table[j].setId, table[j].scheduled))
    && Total(sets) == |table|
  }

  /** A row of an existing group raises that group's count by one. */
  lemma ListingIncrement(sets: seq<SetSummary>, table: seq<QueueRow>, x: QueueRow, j: nat)
    requires IsSetListing(sets, table)
    requires j < |sets| && sets[j].setId == x.setId && sets[j].scheduled == x.scheduled
    ensures IsSetListing(sets[j := sets[j].(countValue := sets[j].countValue + 1)], table + [x])
  {
    var r := sets[j := sets[j].(countValue := sets[j].countValue + 1)];
    var t := table + [x];
    forall a | 0 <= a < |r| ensures r[a].countValue == Count(t, InSet(r[a].setId, r[a].scheduled)) {
      FilterSnoc(table, x, InSet(r[a].setId, r[a].scheduled));
      if a != j {
        assert !SameGroup(sets[a], sets[j]) by {
          if a < j { assert !SameGroup(sets[a], sets[j]); } else { assert !SameGroup(sets[j], sets[a]); }
        }
      }
    }
    forall k | 0 <= k < |t| ensures Lists(r, t[k].setId, t[k].scheduled) {
      if k < |table| {
        assert t[k] == table[k];
        var a :| 0 <= a < |sets| && sets[a].setId == table[k].setId && sets[a].scheduled == table[k].scheduled;
        assert r[a].setId == t[k].setId && r[a].scheduled == t[k].scheduled;
      } else {
        assert r[j].setId == t[k].setId && r[j].scheduled == t[k].scheduled;
      }
    }
    assert forall a :: 0 <= a < |r| ==> ScheduledOf(r[a]) == ScheduledOf(sets[a]);
    TotalIncrement(sets, j);
  }

  /** Inserting one element at position `k` keeps the rest in order; `k` locates it. */
  lemma InsertedAt(sets: seq<SetSummary>, g: SetSummary, k: nat, r: seq<SetSummary>)
    requires k <= |sets| && r == sets[..k] + [g] + sets[k..]
    ensures |r| == |sets| + 1 && r[k] == g
    ensures forall a :: 0 <= a < |sets| ==> r[if a < k then a else a + 1] == sets[a]
    ensures forall a :: 0 <= a < |r| && a != k ==> r[a] == sets[if a < k then a else a - 1]
  {
  }

  /** The total of a listing with one more summary. */
  lemma TotalInsert(sets: seq<SetSummary>, g: SetSummary, k: nat)
    requires k <= |sets|
    ensures Total(sets[..k] + [g] + sets[k..]) == Total(sets) + g.countValue
  {
    assert sets == sets[..k] + sets[k..];
    TotalConcat(sets[..k], sets[k..]);
    TotalConcat(sets[..k] + [g], sets[k..]);
    TotalConcat(sets[..k], [g]);
    assert [g][..0] == [];
  }

  /** Inserting a summary of a new group keeps the groups distinct. */
  lemma InsertDistinct(sets: seq<SetSummary>, g: SetSummary, k: nat, r: seq<SetSummary>)
    requires forall a, b :: 0 <= a < b < |sets| ==> !SameGroup(sets[a], sets[b])
    requires forall a :: 0 <= a < |sets| ==> !SameGroup(sets[a], g)
    requires k <= |sets| && r == sets[..k] + [g] + sets[k..]
    ensures forall a, b :: 0 <= a < b < |r| ==> !SameGroup(r[a], r[b])
  {
    forall a, b | 0 <= a < b < |r| ensures !SameGroup(r[a], r[b]) {
      var a' := if a < k then a else a - 1;
      var b' := if b < k then b else b - 1;
      if a == k {
        assert r[a] == g && r[b] == sets[b'];
      } else if b == k {
        assert r[b] == g && r[a] == sets[a'];
      } else {
        assert r[a] == sets[a'] && r[b] == sets[b'] && a' < b';
      }
    }
  }

  /** No row of the table belongs to a group the listing does not name. */
  lemma NewGroupEmpty(sets: seq<SetSummary>, table: seq<QueueRow>, x: QueueRow)
    requires forall j :: 0 <= j < |table| ==> Lists(sets, table[j].setId, table[j].scheduled)
    requires !Lists(sets, x.setId, x.scheduled)
    ensures Count(table, InSet(x.setId, x.scheduled)) == 0
  {
    CountPositive(table, InSet(x.setId, x.scheduled));
  }

  /** After the insertion every row of the longer table still has its group listed. */
  lemma InsertCovers(sets: seq<SetSummary>, table: seq<QueueRow>, x: QueueRow, k: nat, r: seq<SetSummary>)
    requires forall j :: 0 <= j < |table| ==> Lists(sets, table[j].setId, table[j].scheduled)
    requires k <= |sets| && r == sets[..k] + [SetSummary(1, x.setId, x.scheduled)] + sets[k..]
    ensures forall m :: 0 <= m < |table + [x]| ==> Lists(r, (table + [x])[m].setId, (table + [x])[m].scheduled)
  {
    var t := table + [x];
    InsertedAt(sets, SetSummary(1, x.setId, x.scheduled), k, r);
    forall m | 0 <= m < |t| ensures Lists(r, t[m].setId, t[m].scheduled) {
      if m < |table| {
        assert t[m] == table[m];
        var a :| 0 <= a < |sets| && sets[a].setId == table[m].setId && sets[a].scheduled == table[m].scheduled;
        assert r[if a < k then a else a + 1] == sets[a];
      } else {
        assert r[k].setId == t[m].setId && r[k].scheduled == t[m].scheduled;
      }
    }
  }

  /** After the insertion each summary counts its group in the longer table. */
  lemma InsertCounts(sets: seq<SetSummary>, table: seq<QueueRow>, x: QueueRow, k: nat, r: seq<SetSummary>)
    requires forall a :: 0 <= a < |sets| ==> sets[a].countValue == Count(table, InSet(sets[a].setId, sets[a].scheduled))
    requires forall a :: 0 <= a < |sets| ==> sets[a].countValue >= 1
    requires forall a :: 0 <= a < |sets| ==> !SameGroup(sets[a], SetSummary(1, x.setId, x.scheduled))
    requires Count(table, InSet(x.setId, x.scheduled)) == 0
    requires k <= |sets| && r == sets[..k] + [SetSummary(1, x.setId, x.scheduled)] + sets[k..]
    ensures forall a :: 0 <= a < |r| ==> r[a].countValue == Count(table + [x], InSet(r[a].setId, r[a].scheduled))
    ensures forall a :: 0 <= a < |r| ==> r[a].countValue >= 1
  {
    InsertedAt(sets, SetSummary(1, x.setId, x.scheduled), k, r);
    forall a | 0 <= a < |r| ensures r[a].countValue == Count(table + [x], InSet(r[a].setId, r[a].scheduled)) && r[a].countValue >= 1 {
      FilterSnoc(table, x, InSet(r[a].setId, r[a].scheduled));
      if a != k {
        assert r[a] == sets[if a < k then a else a - 1];
      }
    }
  }

  /** A row of a new group adds a summary with count one at its place in the order. */
  lemma ListingInsert(sets: seq<SetSummary>, table: seq<QueueRow>, x: QueueRow, k: nat, r: seq<SetSummary>)
    requires IsSetListing(sets, table)
    requires !Lists(sets, x.setId, x.scheduled)
    requires SortedDesc(r, ScheduledOf)
    requires k <= |sets| && r == sets[..k] + [SetSummary(1, x.setId, x.scheduled)] + sets[k..]
    ensures IsSetListing(r, table + [x])
  {
    var g := SetSummary(1, x.setId, x.scheduled);
    assert forall a :: 0 <= a < |sets| ==> !SameGroup(sets[a], g);
    NewGroupEmpty(sets, table, x);
    InsertDistinct(sets, g, k, r);
    InsertCounts(sets, table, x, k, r);
    InsertCovers(sets, table, x, k, r);
    TotalInsert(sets, g, k);
  }

  /** The work queue table, held in memory, with the statements that read it row by row or change it. */
  class QueueRepository {
    var rows: seq<QueueRow>

    constructor (rows: seq<QueueRow>)
      ensures this.rows == rows
    {
      this.rows := rows;
    }

    /**
     * `unsetQueueProcessId`: every row the lease holds gets `process_id = ''`,
     * whatever its `exec_time`; no other row and no other column changes.
     */
    method UnsetQueueProcessId(processId: string)
      modifies this
      ensures rows == UnsetProcessId(old(rows), processId)
      ensures |rows| == |old(rows)|
      ensures processId != "" ==> forall i :: 0 <= i < |rows| ==> rows[i].processId != processId
      ensures forall i :: 0 <= i < |rows| && old(rows)[i].processId == processId ==> rows[i] == old(rows)[i].(processId := "")
      ensures forall i :: 0 <= i < |rows| && old(rows)[i].processId != processId ==> rows[i] == old(rows)[i]
    {
      rows := UnsetProcessId(rows, processId);
    }

    /** `getSetIdWithUnprocessedEntries`: each `set_id` with a row pending before `now` (strict), once. */
    method GetSetIdWithUnprocessedEntries(now: int) returns (setIds: seq<int>)
      ensures forall a, b :: 0 <= a < b < |setIds| ==> setIds[a] != setIds[b]
      ensures forall id :: id in setIds <==> exists i :: 0 <= i < |rows| && PendingBefore(now)(rows[i]) && rows[i].setId == id
    {
      setIds := [];
      var i := 0;
      while i < |rows|
        invariant 0 <= i <= |rows|
        invariant forall a, b :: 0 <= a < b < |setIds| ==> setIds[a] != setIds[b]
        invariant forall id :: id in setIds <==> exists j :: 0 <= j < i && PendingBefore(now)(rows[j]) && rows[j].setId == id
      {
        if PendingBefore(now)(rows[i]) && rows[i].setId !in setIds {
          setIds := setIds + [rows[i].setId];
        }
        i := i + 1;
      }
    }

    /**
     * `getTotalQueueEntriesByConfiguration`: nothing for an empty list of
     * set ids; otherwise, per configuration, the number of rows in those
     * sets scheduled before `now` (strict).
     */
    method GetTotalQueueEntriesByConfiguration(setIds: seq<int>, now: int) returns (totals: map<string, nat>)
      ensures |setIds| == 0 ==> totals == map[]
      ensures forall c :: c in totals <==> |setIds| > 0 && exists i :: 0 <= i < |rows| && InSetsBefore(setIds, now)(rows[i]) && rows[i].configuration == c
      ensures forall c :: c in totals ==> totals[c] == Count(rows, InSetsBeforeIn(setIds, now, c)) && totals[c] >= 1
    {
      totals := map[];
      if |setIds| > 0 {
        var i := 0;
        while i < |rows|
          invariant 0 <= i <= |rows|
          invariant forall c :: c in totals <==> exists j :: 0 <= j < i && InSetsBefore(setIds, now)(rows[j]) && rows[j].configuration == c
          invariant forall c :: c in totals ==> totals[c] == Count(rows[..i], InSetsBeforeIn(setIds, now, c)) && totals[c] >= 1
        {
          var r := rows[i];
          forall c ensures Count(rows[..i + 1], InSetsBeforeIn(setIds, now, c))
                        == Count(rows[..i], InSetsBeforeIn(setIds, now, c)) + (if InSetsBeforeIn(setIds, now, c)(r) then 1 else 0) {
            FilterPrefix(rows, i, InSetsBeforeIn(setIds, now, c));
          }
          if InSetsBefore(setIds, now)(r) {
            var c := r.configuration;
            if c in totals {
              totals := totals[c := totals[c] + 1];
            } else {
              assert Count(rows[..i], InSetsBeforeIn(setIds, now, c)) == 0 by {
                CountPositive(rows[..i], InSetsBeforeIn(setIds, now, c));
              }
              totals := totals[c := 1];
            }
          }
          i := i + 1;
        }
        assert rows[..|rows|] == rows;
      }
    }

    /**
     * `getLastProcessedEntriesTimestamps`: the `limit` largest `exec_time`
     * values of the table, largest first. The statement does not filter on
     * `exec_time`, so unexecuted rows (0) fill up a short result.
     */
    method GetLastProcessedEntriesTimestamps(limit: nat := 100) returns (timestamps: seq<int>)
      ensures |timestamps| == Min(limit, |rows|)
      ensures SortedDesc(timestamps, Identity)
      ensures multiset(timestamps) <= multiset(ExecTimes(rows))
      ensures forall x, j :: x in multiset(ExecTimes(rows)) - multiset(timestamps) && 0 <= j < |timestamps| ==> x <= timestamps[j]
    {
      var sorted := SortDesc(ExecTimes(rows), Identity);
      timestamps := sorted[..Min(limit, |rows|)];
      TopOfSorted(ExecTimes(rows), sorted, Min(limit, |rows|), Identity);
    }

    /**
     * `getLastProcessedEntries`: `limit` rows with the largest `exec_time`,
     * largest first; no row left out has a larger `exec_time` than a row
     * returned. Ties are broken by the store, so only this is promised.
     */
    method GetLastProcessedEntries(limit: nat := 100) returns (entries: seq<QueueRow>)
      ensures |entries| == Min(limit, |rows|)
      ensures SortedDesc(entries, ExecTimeOf)
      ensures multiset(entries) <= multiset(rows)
      ensures forall x, j :: x in multiset(rows) - multiset(entries) && 0 <= j < |entries| ==> x.execTime <= entries[j].execTime
    {
      var sorted := SortDesc(rows, ExecTimeOf);
      entries := sorted[..Min(limit, |rows|)];
      TopOfSorted(rows, sorted, Min(limit, |rows|), ExecTimeOf);
    }

    /**
     * `getPerformanceData`: per completing process, the first and last
     * `exec_time` and the number of rows it executed with `exec_time` in
     * [start, end] (0 excluded).
     */
    method GetPerformanceData(start: int, end: int) returns (performance: map<string, Performance>)
      ensures forall p :: p in performance <==> exists i :: 0 <= i < |rows| && InWindow(start, end)(rows[i]) && rows[i].processIdCompleted == p
      ensures forall p :: p in performance ==> start <= performance[p].start <= performance[p].end <= end
      ensures forall p :: p in performance ==> Summarizes(performance[p], rows, start, end, p)
    {
      performance := map[];
      var i := 0;
      while i < |rows|
        invariant 0 <= i <= |rows|
        invariant IsPerformanceData(performance, rows[..i], start, end)
      {
        var r := rows[i];
        assert rows[..i + 1] == rows[..i] + [r];
        if InWindow(start, end)(r) {
          var p := r.processIdCompleted;
          var g;
          if p in performance {
            var before := performance[p];
            g := Performance(Min(before.start, r.execTime), Max(before.end, r.execTime), before.urlcount + 1);
            SummarizesAdd(before, rows[..i], r, start, end, p);
          } else {
            g := Performance(r.execTime, r.execTime, 1);
            assert Count(rows[..i], CompletedInWindow(start, end, p)) == 0 by {
              CountPositive(rows[..i], CompletedInWindow(start, end, p));
            }
            SummarizesFirst(rows[..i], r, start, end, p);
          }
          PerformanceUpdate(performance, rows[..i], r, start, end, g);
          performance := performance[p := g];
        } else {
          PerformanceSkip(performance, rows[..i], r, start, end);
        }
        i := i + 1;
      }
      assert rows[..|rows|] == rows;
    }

    /**
     * `getAvailableSets`: one summary per distinct (`set_id`, `scheduled`)
     * pair with its row count, ordered by `scheduled` descending.
     */
    method GetAvailableSets() returns (sets: seq<SetSummary>)
      ensures IsSetListing(sets, rows)
    {
      sets := [];
      var i := 0;
      while i < |rows|
        invariant 0 <= i <= |rows|
        invariant IsSetListing(sets, rows[..i])
      {
        var x := rows[i];
        assert rows[..i + 1] == rows[..i] + [x];
        var j := 0;
        while j < |sets| && !(sets[j].setId == x.setId && sets[j].scheduled == x.scheduled)
          invariant 0 <= j <= |sets|
          invariant forall a :: 0 <= a < j ==> !(sets[a].setId == x.setId && sets[a].scheduled == x.scheduled)
        {
          j := j + 1;
        }
        if j < |sets| {
          ListingIncrement(sets, rows[..i], x, j);
          sets := sets[j := sets[j].(countValue := sets[j].countValue + 1)];
        } else {
          var r, k := InsertDesc(sets, SetSummary(1, x.setId, x.scheduled), ScheduledOf);
          ListingInsert(sets, rows[..i], x, k, r);
          sets := r;
        }
        i := i + 1;
      }
      assert rows[..|rows|] == rows;
    }
  }
}
