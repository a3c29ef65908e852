/**
 * The worker-process lease registry, table `tx_crawler_process`, and the
 * statements `ProcessRepository` runs on it.
 *
 * Each worker process has one row: `ttl` is the time until which its lease
 * is held, `active` and `deleted` are 0/1 flags, and
 * `assigned_items_count` is the number of queue rows it was given.
 */
module Processes {
  import opened Wrappers
  import opened Tables
  import opened Ordering
  import opened PhpValues

  /** One row of `tx_crawler_process`, with the columns the statements touch. */
  datatype ProcessRow = ProcessRow(
    processId: string,
    active: int,
    ttl: int,
    assignedItemsCount: int,
    deleted: int,
    systemProcessId: int)

  /** The two columns `getActiveProcessesOlderThanOneHour` and `getActiveOrphanProcesses` select. */
  datatype ProcessIdentity = ProcessIdentity(processId: string, systemProcessId: int)

  function TtlOf(r: ProcessRow): (t: int) { r.ttl }

  function IdentityOf(r: ProcessRow): (id: ProcessIdentity) { ProcessIdentity(r.processId, r.systemProcessId) }

  // ---------------------------------------------------------------------
  // WHERE clauses
  // ---------------------------------------------------------------------

  /** `active = 1 AND deleted = 0` */
  function Active(): (clause: ProcessRow -> bool) {
    (r: ProcessRow) => r.active == 1 && r.deleted == 0
  }

  /** `deleted = 0 AND ttl > t` */
  function NotTimeouted(t: int): (clause: ProcessRow -> bool) {
    (r: ProcessRow) => r.deleted == 0 && r.ttl > t
  }

  /** `ttl > t` */
  function TtlAfter(t: int): (clause: ProcessRow -> bool) {
    (r: ProcessRow) => r.ttl > t
  }

  /** `ttl > t` on a row flagged deleted: what separates the two statements above. */
  function DeletedTtlAfter(t: int): (clause: ProcessRow -> bool) {
    (r: ProcessRow) => r.deleted != 0 && r.ttl > t
  }

  /** `ttl <= threshold AND active = 1` */
  function StaleSince(threshold: int): (clause: ProcessRow -> bool) {
    (r: ProcessRow) => r.ttl <= threshold && r.active == 1
  }

  /** `process_id = id` */
  function HasProcessId(processId: string): (clause: ProcessRow -> bool) {
    (r: ProcessRow) => r.processId == processId
  }

  /** The rows a delete by `process_id` keeps. */
  function OtherProcessId(processId: string): (clause: ProcessRow -> bool) {
    (r: ProcessRow) => r.processId != processId
  }

  /** The rows `deleteProcessesWithoutItemsAssigned` keeps. */
  function HasItemsAssigned(): (clause: ProcessRow -> bool) {
    (r: ProcessRow) => r.assignedItemsCount != 0
  }

  /** The rows `deleteProcessesMarkedAsDeleted` keeps. */
  function NotMarkedDeleted(): (clause: ProcessRow -> bool) {
    (r: ProcessRow) => r.deleted != 1
  }

  // ---------------------------------------------------------------------
  // Single-statement reads
  // ---------------------------------------------------------------------

  /** `countActive`: the number of rows with `active = 1 AND deleted = 0`. */
  function CountActive(table: seq<ProcessRow>): (n: nat)
    ensures n <= |table|
    ensures n > 0 <==> exists i :: 0 <= i < |table| && table[i].active == 1 && table[i].deleted == 0
  {
    CountPositive(table, Active());
    Count(table, Active())
  }

  /** `countNotTimeouted(t)`: the number of rows not deleted whose lease outlives `t` (strictly). */
  function CountNotTimeouted(table: seq<ProcessRow>, t: int): (n: nat)
    ensures n <= |table|
    ensures n > 0 <==> exists i :: 0 <= i < |table| && table[i].deleted == 0 && table[i].ttl > t
  {
    CountPositive(table, NotTimeouted(t));
    Count(table, NotTimeouted(t))
  }

  /** The `process_id`/`system_process_id` pairs of `table`, in table order. */
  function Identities(table: seq<ProcessRow>): (ids: seq<ProcessIdentity>)
    ensures |ids| == |table|
    ensures forall i :: 0 <= i < |table| ==> ids[i] == IdentityOf(table[i])
  {
    if |table| == 0 then [] else Identities(table[..|table| - 1]) + [IdentityOf(table[|table| - 1])]
  }

  /** The identities of active rows whose lease ended at `threshold` or before, in table order. */
  function StaleProcesses(table: seq<ProcessRow>, threshold: int): (stale: seq<ProcessIdentity>) {
    Identities(Filter(table, StaleSince(threshold)))
  }

  /** Adding one row to the table adds its identity to the stale list when it is stale. */
  lemma StaleProcessesPrefix(table: seq<ProcessRow>, i: nat, threshold: int)
    requires i < |table|
    ensures StaleProcesses(table[..i + 1], threshold)
         == StaleProcesses(table[..i], threshold) + (if StaleSince(threshold)(table[i]) then [IdentityOf(table[i])] else [])
  {
    FilterPrefix(table, i, StaleSince(threshold));
    var tail := if StaleSince(threshold)(table[i]) then [table[i]] else [];
    IdentitiesConcat(Filter(table[..i], StaleSince(threshold)), tail);
    assert Identities(tail) == if StaleSince(threshold)(table[i]) then [IdentityOf(table[i])] else [];
  }

  /** Every stale identity comes from a stale row of the table. */
  lemma StaleFromRow(table: seq<ProcessRow>, threshold: int, x: ProcessIdentity)
    requires x in StaleProcesses(table, threshold)
    ensures exists i :: 0 <= i < |table| && table[i].active == 1 && table[i].ttl <= threshold && IdentityOf(table[i]) == x
  {
    var stale := Filter(table, StaleSince(threshold));
    var k :| 0 <= k < |stale| && Identities(stale)[k] == x;
    assert stale[k] in stale;
    FilterMembership(table, StaleSince(threshold), stale[k]);
    var i :| 0 <= i < |table| && table[i] == stale[k];
    assert StaleSince(threshold)(stale[k]);
  }

  /** Every stale row of the table contributes its identity. */
  lemma StaleToIdentity(table: seq<ProcessRow>, threshold: int, i: nat)
    requires i < |table| && table[i].active == 1 && table[i].ttl <= threshold
    ensures IdentityOf(table[i]) in StaleProcesses(table, threshold)
  {
    var stale := Filter(table, StaleSince(threshold));
    assert table[i] in table;
    FilterMembership(table, StaleSince(threshold), table[i]);
    var k :| 0 <= k < |stale| && stale[k] == table[i];
    assert Identities(stale)[k] == IdentityOf(table[i]);
  }

  /**
   * `getActiveOrphanProcesses`: the identities of the active rows whose
   * `ttl` is at most `now - processMaxRunTime`, one per row.
   */
  function GetActiveOrphanProcesses(table: seq<ProcessRow>, now: int, processMaxRunTime: int): (orphans: seq<ProcessIdentity>)
    ensures |orphans| == Count(table, StaleSince(now - processMaxRunTime))
  {
    FilterCount(table, StaleSince(now - processMaxRunTime));
    StaleProcesses(table, now - processMaxRunTime)
  }

  /** An identity is an orphan exactly when some active row with that identity has `ttl <= now - processMaxRunTime`. */
  lemma OrphanMembership(table: seq<ProcessRow>, now: int, processMaxRunTime: int, x: ProcessIdentity)
    ensures x in GetActiveOrphanProcesses(table, now, processMaxRunTime)
        <==> exists i :: 0 <= i < |table| && table[i].active == 1 && table[i].ttl <= now - processMaxRunTime && IdentityOf(table[i]) == x
  {
    var threshold := now - processMaxRunTime;
    if x in StaleProcesses(table, threshold) {
      StaleFromRow(table, threshold, x);
    }
    if exists i :: 0 <= i < |table| && table[i].active == 1 && table[i].ttl <= threshold && IdentityOf(table[i]) == x {
      var i :| 0 <= i < |table| && table[i].active == 1 && table[i].ttl <= threshold && IdentityOf(table[i]) == x;
      StaleToIdentity(table, threshold, i);
    }
  }

  // ---------------------------------------------------------------------
  // The LIMIT clause
  // ---------------------------------------------------------------------

  /** The clause `"<offset>, <itemCount>"` for a validated offset and item count. */
  function LimitClause(offset: nat, itemCount: nat): (clause: string) {
    NatToString(offset) + ", " + NatToString(itemCount)
  }

  /**
   * `getLimitFromItemCountAndOffset`: the item count validated as an integer
   * of at least 1 (default 20) and the offset as one of at least 0
   * (default 0), joined as `"<offset>, <itemCount>"`. An array argument
   * fails the filter outright, and its `false` is joined as "".
   */
  function GetLimitFromItemCountAndOffset(itemCount: PhpValue, offset: PhpValue): (limit: string)
    ensures !itemCount.PhpArray? && !offset.PhpArray? ==> exists o: nat, c: nat :: c >= 1 && limit == LimitClause(o, c)
    ensures itemCount.PhpArray? && !offset.PhpArray? ==> exists o: nat :: limit == NatToString(o) + ", "
    ensures !itemCount.PhpArray? && offset.PhpArray? ==> exists c: nat :: c >= 1 && limit == ", " + NatToString(c)
    ensures itemCount.PhpArray? && offset.PhpArray? ==> limit == ", "
  {
    var c := FilterValidateInt(itemCount, 1, 20);
    var o := FilterValidateInt(offset, 0, 0);
    assert o.Some? ==> FilterResultToString(o) == NatToString(o.value);
    assert c.Some? ==> FilterResultToString(c) == NatToString(c.value);
    assert o.Some? && c.Some? ==> FilterResultToString(o) + ", " + FilterResultToString(c) == LimitClause(o.value, c.value);
    FilterResultToString(o) + ", " + FilterResultToString(c)
  }

  /** A digit string followed by ", " splits at its own length: the comma is not a digit. */
  lemma LimitClauseSplit(o: nat, c: nat)
    ensures |NatToString(o)| < |LimitClause(o, c)| && LimitClause(o, c)[|NatToString(o)|] == ','
    ensures forall i :: 0 <= i < |NatToString(o)| ==> LimitClause(o, c)[i] != ','
    ensures LimitClause(o, c)[..|NatToString(o)|] == NatToString(o)
    ensures LimitClause(o, c)[|NatToString(o)| + 2..] == NatToString(c)
  {
    var s := LimitClause(o, c);
    var d := NatToString(o);
    forall i | 0 <= i < |d| ensures s[i] != ',' {
      assert s[i] == d[i] && IsDigit(d[i]);
    }
    assert s[..|d|] == d;
    assert s[|d| + 2..] == NatToString(c);
  }

  /** The clause determines the offset and the item count it was built from. */
  lemma LimitClauseInjective(o1: nat, c1: nat, o2: nat, c2: nat)
    requires LimitClause(o1, c1) == LimitClause(o2, c2)
    ensures o1 == o2 && c1 == c2
  {
    LimitClauseSplit(o1, c1);
    LimitClauseSplit(o2, c2);
    assert |NatToString(o1)| == |NatToString(o2)|;
    NatToStringInjective(o1, o2);
    NatToStringInjective(c1, c2);
  }

  /** A valid item count of at least 1 and a valid offset of at least 0 pass through unchanged. */
  lemma LimitPassesValidValues(itemCount: PhpValue, offset: PhpValue, c: int, o: int)
    requires !itemCount.PhpArray? && ValidateInt(itemCount) == Some(c) && c >= 1
    requires !offset.PhpArray? && ValidateInt(offset) == Some(o) && o >= 0
    ensures GetLimitFromItemCountAndOffset(itemCount, offset) == LimitClause(o, c)
  {
  }

  /** An item count that is not an integer, or is below 1, becomes 20 next to a valid offset. */
  lemma LimitDefaultsItemCount(itemCount: PhpValue, offset: PhpValue, o: int)
    requires !itemCount.PhpArray? && (ValidateInt(itemCount).None? || ValidateInt(itemCount).value < 1)
    requires !offset.PhpArray? && ValidateInt(offset) == Some(o) && o >= 0
    ensures GetLimitFromItemCountAndOffset(itemCount, offset) == LimitClause(o, 20)
  {
  }

  /** An offset that is not an integer, or is negative, becomes 0 next to a valid item count. */
  lemma LimitDefaultsOffset(itemCount: PhpValue, offset: PhpValue, c: int)
    requires !itemCount.PhpArray? && ValidateInt(itemCount) == Some(c) && c >= 1
    requires !offset.PhpArray? && (ValidateInt(offset).None? || ValidateInt(offset).value < 0)
    ensures GetLimitFromItemCountAndOffset(itemCount, offset) == LimitClause(0, c)
  {
  }

  /** When neither value validates in range, the clause is the default `"0, 20"`. */
  lemma LimitDefaultsBoth(itemCount: PhpValue, offset: PhpValue)
    requires !itemCount.PhpArray? && (ValidateInt(itemCount).None? || ValidateInt(itemCount).value < 1)
    requires !offset.PhpArray? && (ValidateInt(offset).None? || ValidateInt(offset).value < 0)
    ensures GetLimitFromItemCountAndOffset(itemCount, offset) == "0, 20"
  {
    assert NatToString(20) == "20";
  }

  /** An array item count is `false` and leaves the clause ending in ", "; the offset still validates. */
  lemma LimitArrayItemCount(offset: PhpValue, o: int)
    requires !offset.PhpArray? && ValidateInt(offset) == Some(o) && o >= 0
    ensures GetLimitFromItemCountAndOffset(PhpArray, offset) == NatToString(o) + ", "
  {
  }

  /** An array offset is `false` and leaves the clause starting with ", "; the item count still validates. */
  lemma LimitArrayOffset(itemCount: PhpValue, c: int)
    requires !itemCount.PhpArray? && ValidateInt(itemCount) == Some(c) && c >= 1
    ensures GetLimitFromItemCountAndOffset(itemCount, PhpArray) == ", " + NatToString(c)
  {
  }

  /** An array next to a scalar that fails validation: the scalar takes its default and the array joins as "". */
  lemma LimitArrayWithInvalid(scalar: PhpValue)
    requires !scalar.PhpArray?
    ensures ValidateInt(scalar).None? || ValidateInt(scalar).value < 0 ==> GetLimitFromItemCountAndOffset(PhpArray, scalar) == "0, "
    ensures ValidateInt(scalar).None? || ValidateInt(scalar).value < 1 ==> GetLimitFromItemCountAndOffset(scalar, PhpArray) == ", 20"
  {
    assert NatToString(0) == "0";
    assert NatToString(20) == "20";
  }

  /** Values TYPO3 accepts as integers are taken at their integer value when in range. */
  lemma LimitOfInterpretableValues(itemCount: PhpValue, offset: PhpValue)
    requires CanBeInterpretedAsInteger(itemCount) && IntegerValue(itemCount) >= 1
    requires CanBeInterpretedAsInteger(offset) && IntegerValue(offset) >= 0
    ensures GetLimitFromItemCountAndOffset(itemCount, offset) == LimitClause(IntegerValue(offset), IntegerValue(itemCount))
  {
    InterpretableIsValidInt(itemCount);
    InterpretableIsValidInt(offset);
    LimitPassesValidValues(itemCount, offset, IntegerValue(itemCount), IntegerValue(offset));
  }

  // ---------------------------------------------------------------------
  // Properties relating statements
  // ---------------------------------------------------------------------

  /** Identities distribute over concatenation. */
  lemma IdentitiesConcat(a: seq<ProcessRow>, b: seq<ProcessRow>)
    ensures Identities(a + b) == Identities(a) + Identities(b)
  {
  }

  /** Under an earlier threshold the stale list is a subsequence of the one under a later threshold. */
  lemma StaleNarrow(table: seq<ProcessRow>, early: int, late: int)
    requires early <= late
    ensures StaleProcesses(table, early) == StaleProcesses(Filter(table, StaleSince(late)), early)
  {
    FilterNarrow(table, StaleSince(late), StaleSince(early));
  }

  /** An identity stale under an earlier threshold is stale under a later one. */
  lemma StaleSubset(table: seq<ProcessRow>, early: int, late: int)
    requires early <= late
    ensures forall x :: x in StaleProcesses(table, early) ==> x in StaleProcesses(table, late)
  {
    forall x | x in StaleProcesses(table, early) ensures x in StaleProcesses(table, late) {
      StaleFromRow(table, early, x);
      var i :| 0 <= i < |table| && table[i].active == 1 && table[i].ttl <= early && IdentityOf(table[i]) == x;
      StaleToIdentity(table, late, i);
    }
  }

  /** The threshold `getActiveProcessesOlderThanOneHour` compares `ttl` with: an hour before the orphan threshold. */
  function OneHourBefore(now: int, processMaxRunTime: int): (threshold: int) {
    now - processMaxRunTime - 3600
  }

  /**
   * With the earlier threshold `now - processMaxRunTime - 3600`, every
   * identity `getActiveProcessesOlderThanOneHour` finds is an orphan too.
   */
  lemma OlderThanOneHourAmongOrphans(table: seq<ProcessRow>, now: int, processMaxRunTime: int)
    ensures forall x :: x in StaleProcesses(table, OneHourBefore(now, processMaxRunTime)) ==> x in GetActiveOrphanProcesses(table, now, processMaxRunTime)
  {
    var early, late := OneHourBefore(now, processMaxRunTime), now - processMaxRunTime;
    assert early <= late;
    StaleSubset(table, early, late);
  }

  /** Rows flagged deleted all have `deleted != 0`, so the not-timed-out count is part of the `ttl > t` count. */
  lemma NotTimeoutedWithinTtlAfter(table: seq<ProcessRow>, t: int)
    ensures Count(table, TtlAfter(t)) == CountNotTimeouted(table, t) + Count(table, DeletedTtlAfter(t))
    ensures CountNotTimeouted(table, t) <= Count(table, TtlAfter(t))
  {
    CountPartition(table, TtlAfter(t), NotTimeouted(t), DeletedTtlAfter(t));
  }

  /** Deleting the rows marked deleted changes neither the active count nor the not-timed-out count. */
  lemma DeleteMarkedKeepsCounts(table: seq<ProcessRow>, t: int)
    ensures CountActive(Filter(table, NotMarkedDeleted())) == CountActive(table)
    ensures CountNotTimeouted(Filter(table, NotMarkedDeleted()), t) == CountNotTimeouted(table, t)
  {
    CountNarrow(table, NotMarkedDeleted(), Active());
    CountNarrow(table, NotMarkedDeleted(), NotTimeouted(t));
  }

  /** Each delete is idempotent: running it a second time deletes nothing. */
  lemma DeletesIdempotent(table: seq<ProcessRow>, processId: string)
    ensures Filter(Filter(table, NotMarkedDeleted()), NotMarkedDeleted()) == Filter(table, NotMarkedDeleted())
    ensures Filter(Filter(table, HasItemsAssigned()), HasItemsAssigned()) == Filter(table, HasItemsAssigned())
    ensures Filter(Filter(table, OtherProcessId(processId)), OtherProcessId(processId)) == Filter(table, OtherProcessId(processId))
  {
    FilterIdempotent(table, NotMarkedDeleted());
    FilterIdempotent(table, HasItemsAssigned());
    FilterIdempotent(table, OtherProcessId(processId));
  }

  /** A delete removes exactly the matching rows: the survivors and the matches add up to the table. */
  lemma DeleteRemovesMatches(table: seq<ProcessRow>, processId: string)
    ensures |Filter(table, OtherProcessId(processId))| == |table| - Count(table, HasProcessId(processId))
  {
    FilterCount(table, OtherProcessId(processId));
    var every := (r: ProcessRow) => true;
    CountPartition(table, every, HasProcessId(processId), OtherProcessId(processId));
    CountTotal(table, every);
  }

  /** The process table, held in memory, with the statements that read it row by row or delete from it. */
  class ProcessRepository {
    var rows: seq<ProcessRow>
    /** The `processMaxRunTime` extension setting, read once on construction. */
    const processMaxRunTime: int

    constructor (rows: seq<ProcessRow>, processMaxRunTime: int)
      ensures this.rows == rows && this.processMaxRunTime == processMaxRunTime
    {
      this.rows := rows;
      this.processMaxRunTime := processMaxRunTime;
    }

    /** `findAll`: every row, by `ttl` descending. */
    method FindAll() returns (collection: seq<ProcessRow>)
      ensures SortedDesc(collection, TtlOf)
      ensures multiset(collection) == multiset(rows)
      ensures |collection| == |rows|
    {
      collection := SortDesc(rows, TtlOf);
    }

    /** `findAllActive`: the rows with `active = 1 AND deleted = 0`, by `ttl` descending; as many as `countActive`. */
    method FindAllActive() returns (collection: seq<ProcessRow>)
      ensures SortedDesc(collection, TtlOf)
      ensures multiset(collection) == multiset(Filter(rows, Active()))
      ensures forall i :: 0 <= i < |collection| ==> collection[i].active == 1 && collection[i].deleted == 0
      ensures forall r :: r in rows && r.active == 1 && r.deleted == 0 ==> r in collection
      ensures |collection| == CountActive(rows)
    {
      FilterCount(rows, Active());
      FilterMembers(rows, Active());
      collection := SortDesc(Filter(rows, Active()), TtlOf);
      forall i | 0 <= i < |collection| ensures collection[i].active == 1 && collection[i].deleted == 0 {
        assert collection[i] in multiset(Filter(rows, Active()));
      }
      assert forall r :: r in collection <==> r in multiset(collection);
    }

    /** `findAllTimedOut(t)`: the rows with `ttl > t`, deleted or not, by `ttl` descending. */
    method FindAllTimedOut(nextTimeout: int) returns (collection: seq<ProcessRow>)
      ensures SortedDesc(collection, TtlOf)
      ensures multiset(collection) == multiset(Filter(rows, TtlAfter(nextTimeout)))
      ensures forall i :: 0 <= i < |collection| ==> collection[i].ttl > nextTimeout
      ensures forall r :: r in rows && r.ttl > nextTimeout ==> r in collection
      ensures |collection| == Count(rows, TtlAfter(nextTimeout))
      ensures CountNotTimeouted(rows, nextTimeout) <= |collection|
    {
      FilterCount(rows, TtlAfter(nextTimeout));
      FilterMembers(rows, TtlAfter(nextTimeout));
      NotTimeoutedWithinTtlAfter(rows, nextTimeout);
      collection := SortDesc(Filter(rows, TtlAfter(nextTimeout)), TtlOf);
      forall i | 0 <= i < |collection| ensures collection[i].ttl > nextTimeout {
        assert collection[i] in multiset(Filter(rows, TtlAfter(nextTimeout)));
      }
      assert forall r :: r in collection <==> r in multiset(collection);
    }

    /** `removeByProcessId`: the rows with that `process_id` go; the others stay, in order. */
    method RemoveByProcessId(processId: string)
      modifies this
      ensures rows == Filter(old(rows), OtherProcessId(processId))
      ensures forall i :: 0 <= i < |rows| ==> rows[i].processId != processId
      ensures forall r :: r in old(rows) && r.processId != processId ==> r in rows
      ensures |rows| == |old(rows)| - Count(old(rows), HasProcessId(processId))
    {
      DeleteRemovesMatches(rows, processId);
      FilterMembers(rows, OtherProcessId(processId));
      rows := Filter(rows, OtherProcessId(processId));
    }

    /**
     * `getActiveProcessesOlderThanOneHour`: the identities of the active rows
     * whose `ttl` is at most `now - processMaxRunTime - 3600`, in table order.
     */
    method GetActiveProcessesOlderThanOneHour(now: int) returns (activeProcesses: seq<ProcessIdentity>)
      ensures activeProcesses == StaleProcesses(rows, OneHourBefore(now, processMaxRunTime))
      ensures forall x :: x in activeProcesses ==> x in GetActiveOrphanProcesses(rows, now, processMaxRunTime)
    {
      var threshold := OneHourBefore(now, processMaxRunTime);
      activeProcesses := [];
      var i := 0;
      while i < |rows|
        invariant 0 <= i <= |rows|
        invariant activeProcesses == StaleProcesses(rows[..i], threshold)
      {
        StaleProcessesPrefix(rows, i, threshold);
        if rows[i].ttl <= threshold && rows[i].active == 1 {
          activeProcesses := activeProcesses + [IdentityOf(rows[i])];
        }
        i := i + 1;
      }
      assert rows[..|rows|] == rows;
      OlderThanOneHourAmongOrphans(rows, now, processMaxRunTime);
    }

    /** `deleteProcessesWithoutItemsAssigned`: the rows with `assigned_items_count = 0` go; the others stay, in order. */
    method DeleteProcessesWithoutItemsAssigned()
      modifies this
      ensures rows == Filter(old(rows), HasItemsAssigned())
      ensures forall i :: 0 <= i < |rows| ==> rows[i].assignedItemsCount != 0
      ensures forall r :: r in old(rows) && r.assignedItemsCount != 0 ==> r in rows
    {
      FilterMembers(rows, HasItemsAssigned());
      rows := Filter(rows, HasItemsAssigned());
    }

    /** `deleteProcessesMarkedAsDeleted`: the rows with `deleted = 1` go; the others stay, in order. */
    method DeleteProcessesMarkedAsDeleted()
      modifies this
      ensures rows == Filter(old(rows), NotMarkedDeleted())
      ensures forall i :: 0 <= i < |rows| ==> rows[i].deleted != 1
      ensures forall r :: r in old(rows) && r.deleted != 1 ==> r in rows
      ensures CountActive(rows) == CountActive(old(rows))
    {
      FilterMembers(rows, NotMarkedDeleted());
      DeleteMarkedKeepsCounts(rows, 0);
      rows := Filter(rows, NotMarkedDeleted());
    }
  }
}
