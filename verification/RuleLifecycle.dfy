/** The life of a rule: staging cron, activator and revoker (classification/internal/staging) and the manual
    transitions (classification/internal/rules/store.go), all conditional updates of the same rows.
    Times are milliseconds. */
module RuleLifecycles {
  import opened Collections
  import opened RuleTables

  const STAGING_PERIOD: int := 172800000
  const BATCH_LIMIT: nat := 100

  // ---------------------------------------------------------------------------
  // The conditional updates
  // ---------------------------------------------------------------------------

  predicate HasStatus(rows: Rows, id: string, status: string) {
    id in rows && rows[id].status == status
  }

  /** UPDATE ... SET status = 'active' WHERE id = id AND status = 'staged' */
  function Activated(rows: Rows, id: string, now: int): Rows {
    if HasStatus(rows, id, "staged") then rows[id := rows[id].(status := "active", activatedAt := Some(now))] else rows
  }

  /** The revoker: WHERE status = 'active'. */
  function RevokedActive(rows: Rows, id: string, now: int): Rows {
    if HasStatus(rows, id, "active") then rows[id := rows[id].(status := "revoked", revokedAt := Some(now))] else rows
  }

  /** The manual revocation: WHERE status IN ('staged', 'active'). */
  function RevokedManually(rows: Rows, id: string, now: int): Rows {
    if HasStatus(rows, id, "staged") || HasStatus(rows, id, "active")
    then rows[id := rows[id].(status := "revoked", revokedAt := Some(now))] else rows
  }

  predicate OverdueRow(rows: Rows, id: string, cutoff: int) {
    HasStatus(rows, id, "staged") && rows[id].stagedAt.Some? && rows[id].stagedAt.value < cutoff
  }

  function StagedSince(rows: Rows, id: string): int {
    if id in rows && rows[id].stagedAt.Some? then rows[id].stagedAt.value else 0
  }

  /** Rows of the cron's query, `cutoff` being 48 hours ago. */
  function Overdue(rows: Rows, cutoff: int): set<string> {
    set id | id in rows && OverdueRow(rows, id, cutoff)
  }

  /** Distinct overdue rows, oldest first, at most a batch: all `FOR UPDATE SKIP LOCKED` promises
      while other transactions hold locks. */
  ghost predicate IsSelection(rows: Rows, cutoff: int, ids: seq<string>) {
    && Distinct(ids) && |ids| <= BATCH_LIMIT
    && (forall id :: id in ids ==> OverdueRow(rows, id, cutoff))
    && (forall i, j :: 0 <= i < j < |ids| ==> StagedSince(rows, ids[i]) <= StagedSince(rows, ids[j]))
  }

  /** The answer when nothing is locked: nothing older is left out, and nothing at all below the limit. */
  ghost predicate IsBatch(rows: Rows, cutoff: int, ids: seq<string>) {
    && IsSelection(rows, cutoff, ids)
    && (|ids| < BATCH_LIMIT ==> forall id :: id in Overdue(rows, cutoff) ==> id in ids)
    && (forall y, x :: y in ids && x in Overdue(rows, cutoff) && x !in ids ==>
          StagedSince(rows, y) <= StagedSince(rows, x))
  }

  function ActivatedAll(rows: Rows, ids: seq<string>, clock: nat -> int): Rows {
    if ids == [] then rows
    else Activated(ActivatedAll(rows, ids[..|ids| - 1], clock), ids[|ids| - 1], clock(|ids| - 1))
  }

  /** The row after a bulk activation: a listed rule that was staged is active since the time of its turn, and
      every other row is as it was. */
  ghost predicate BulkLeaves(before: Rows, ids: seq<string>, clock: nat -> int, after: Rows, id: string) {
    && (id in after <==> id in before)
    && (id in before ==>
          if id in ids && before[id].status == "staged"
          then exists n :: 0 <= n < |ids| && ids[n] == id &&
                 after[id] == before[id].(status := "active", activatedAt := Some(clock(n)))
          else after[id] == before[id])
  }

  /** The row after a tick: the rules it read, could decode and still found staged are active. */
  ghost predicate TickLeaves(before: Rows, ids: seq<string>, decodes: string -> bool, after: Rows, id: string) {
    && (id in after <==> id in before)
    && (id in before ==>
          if id in ids && decodes(id) && before[id].status == "staged"
          then after[id].activatedAt.Some? &&
               after[id] == before[id].(status := "active", activatedAt := after[id].activatedAt)
          else after[id] == before[id])
  }

  lemma {:induction false} ActivatedAllLeaves(rows: Rows, ids: seq<string>, clock: nat -> int, id: string)
    ensures BulkLeaves(rows, ids, clock, ActivatedAll(rows, ids, clock), id)
  {
    if ids != [] {
      ActivatedAllLeaves(rows, ids[..|ids| - 1], clock, id);
      BulkLeavesStep(rows, ids[..|ids| - 1], ids[|ids| - 1], clock, ActivatedAll(rows, ids[..|ids| - 1], clock), id);
      SplitLast(ids);
    }
  }

  lemma TickActivates(rows: Rows, ids: seq<string>, decodes: string -> bool, clock: nat -> int)
    ensures forall id :: TickLeaves(rows, ids, decodes, ActivatedAll(rows, Decoded(ids, decodes), clock), id)
  {
    forall id ensures TickLeaves(rows, ids, decodes, ActivatedAll(rows, Decoded(ids, decodes), clock), id) {
      ActivatedAllLeaves(rows, Decoded(ids, decodes), clock, id);
      DecodedMember(ids, decodes, id);
    }
  }

  lemma BulkLeavesStep(rows: Rows, ids: seq<string>, last: string, clock: nat -> int, after: Rows, id: string)
    requires BulkLeaves(rows, ids, clock, after, id)
    ensures BulkLeaves(rows, ids + [last], clock, Activated(after, last, clock(|ids|)), id)
  {
    if id in rows && id in ids && rows[id].status == "staged" {
      var n :| 0 <= n < |ids| && ids[n] == id &&
        after[id] == rows[id].(status := "active", activatedAt := Some(clock(n)));
      assert (ids + [last])[n] == id;
    } else if id == last {
      assert (ids + [last])[|ids|] == id;
    }
  }

  datatype RevokeResult = Revoked | Missing | AlreadyRevoked | StillStaged | UnexpectedStatus

  class Staging {
    var rows: Rows

    constructor (rows: Rows)
      ensures this.rows == rows
    {
      this.rows := rows;
    }

    /** `Activator.Activate`: an error unless the row was staged. */
    method Activate(id: string, now: int) returns (ok: bool)
      modifies this
      ensures ok <==> id in old(rows) && old(rows)[id].status == "staged"
      ensures ok ==> rows == old(rows)[id := old(rows)[id].(status := "active", activatedAt := Some(now))]
      ensures !ok ==> rows == old(rows)
      ensures rows == Activated(old(rows), id, now)
    {
      ok := id in rows && rows[id].status == "staged";
      if ok {
        rows := rows[id := rows[id].(status := "active", activatedAt := Some(now))];
      }
    }

    method BulkActivate(ids: seq<string>, clock: nat -> int) returns (activated: nat, failed: nat)
      modifies this
      ensures rows == ActivatedAll(old(rows), ids, clock)
      ensures activated + failed == |ids|
      ensures Distinct(ids) ==> activated == |set id | id in ids && HasStatus(old(rows), id, "staged")|
      ensures forall id :: BulkLeaves(old(rows), ids, clock, rows, id)
    {
      forall id ensures BulkLeaves(old(rows), ids, clock, ActivatedAll(old(rows), ids, clock), id) {
        ActivatedAllLeaves(old(rows), ids, clock, id);
      }
      activated, failed := 0, 0;
      for i := 0 to |ids|
        invariant rows == ActivatedAll(old(rows), ids[..i], clock)
        invariant activated + failed == i
        invariant Distinct(ids) ==> activated == |StagedAmong(old(rows), ids[..i])|
      {
        BulkStep(old(rows), ids, i, clock);
        if Distinct(ids) {
          OneMoreStaged(old(rows), ids, i);
          NextUntouched(old(rows), ids, i, clock);
        }
        var ok := Activate(ids[i], clock(i));
        if !ok {
          failed := failed + 1;
          continue;
        }
        activated := activated + 1;
      }
      assert ids[..|ids|] == ids;
    }

    /** One tick over the rows its query returned, None when it failed; rows that cannot be decoded are
        passed over. */
    method Tick(query: Option<seq<string>>, decodes: string -> bool, now: int, clock: nat -> int)
      returns (ok: bool, activated: nat, failed: nat)
      requires query.Some? ==> IsSelection(rows, now - STAGING_PERIOD, query.value)
      modifies this
      ensures ok == query.Some? && failed == 0
      ensures query.None? ==> rows == old(rows) && activated == 0
      ensures query.Some? ==>
        rows == ActivatedAll(old(rows), Decoded(query.value, decodes), clock) &&
        activated == |Decoded(query.value, decodes)|
      ensures query.Some? ==> forall id :: TickLeaves(old(rows), query.value, decodes, rows, id)
    {
      if query.None? {
        return false, 0, 0;
      }
      var ids := query.value;
      var rules := [];
      for i := 0 to |ids|
        invariant rules == Decoded(ids[..i], decodes)
      {
        assert ids[..i + 1][..i] == ids[..i];
        if !decodes(ids[i]) {
          continue;
        }
        rules := rules + [ids[i]];
      }
      assert ids[..|ids|] == ids;
      TickActivates(rows, ids, decodes, clock);
      if |rules| == 0 {
        return true, 0, 0;
      }
      DecodedSelection(rows, now - STAGING_PERIOD, ids, decodes);
      activated, failed := BulkActivate(rules, clock);
      ok := true;
    }

    method Revoke(id: string, now: int) returns (r: RevokeResult)
      modifies this
      ensures rows == RevokedActive(old(rows), id, now)
      ensures r.Revoked? <==> id in old(rows) && old(rows)[id].status == "active"
      ensures r.Revoked? ==> rows == old(rows)[id := old(rows)[id].(status := "revoked", revokedAt := Some(now))]
      ensures !r.Revoked? ==> rows == old(rows)
      ensures r.Missing? <==> id !in old(rows)
      ensures r.AlreadyRevoked? <==> id in old(rows) && old(rows)[id].status == "revoked"
      ensures r.StillStaged? <==> id in old(rows) && old(rows)[id].status == "staged"
    {
      if id in rows && rows[id].status == "active" {
        rows := rows[id := rows[id].(status := "revoked", revokedAt := Some(now))];
        return Revoked;
      }
      if id !in rows {
        return Missing;
      }
      var currentStatus := rows[id].status;
      if currentStatus == "revoked" {
        return AlreadyRevoked;
      }
      if currentStatus == "staged" {
        return StillStaged;
      }
      r := UnexpectedStatus;
    }

    /** `rules.Store.Revoke`. */
    method RevokeManually(id: string, now: int) returns (ok: bool)
      modifies this
      ensures ok <==> id in old(rows) && (old(rows)[id].status == "staged" || old(rows)[id].status == "active")
      ensures ok ==> rows == old(rows)[id := old(rows)[id].(status := "revoked", revokedAt := Some(now))]
      ensures !ok ==> rows == old(rows)
      ensures rows == RevokedManually(old(rows), id, now)
    {
      ok := id in rows && (rows[id].status == "staged" || rows[id].status == "active");
      if ok {
        rows := rows[id := rows[id].(status := "revoked", revokedAt := Some(now))];
      }
    }
  }

  ghost function StagedAmong(rows: Rows, ids: seq<string>): set<string> {
    set id | id in ids && HasStatus(rows, id, "staged")
  }

  function SetOf(ids: seq<string>): set<string> {
    set id | id in ids
  }

  function Decoded(ids: seq<string>, decodes: string -> bool): seq<string> {
    if ids == [] then []
    else Decoded(ids[..|ids| - 1], decodes) + if decodes(ids[|ids| - 1]) then [ids[|ids| - 1]] else []
  }

  lemma {:induction false} DecodedMember(ids: seq<string>, decodes: string -> bool, id: string)
    ensures id in Decoded(ids, decodes) <==> id in ids && decodes(id)
  {
    if ids != [] {
      DecodedMember(ids[..|ids| - 1], decodes, id);
      MemberSplit(ids, id);
    }
  }

  lemma {:induction false} DecodedDistinct(ids: seq<string>, decodes: string -> bool)
    requires Distinct(ids)
    ensures Distinct(Decoded(ids, decodes))
  {
    if ids != [] {
      var init, last := ids[..|ids| - 1], ids[|ids| - 1];
      DistinctInit(ids);
      DecodedDistinct(init, decodes);
      DecodedMember(init, decodes, last);
    }
  }

  /** What the query returned and could be decoded is staged, each rule once. */
  lemma DecodedSelection(rows: Rows, cutoff: int, ids: seq<string>, decodes: string -> bool)
    requires IsSelection(rows, cutoff, ids)
    ensures var rules := Decoded(ids, decodes);
      Distinct(rules) && StagedAmong(rows, rules) == SetOf(rules) && |SetOf(rules)| == |rules|
  {
    var rules := Decoded(ids, decodes);
    DecodedDistinct(ids, decodes);
    SizeOfDistinct(rules);
    forall id | id in rules ensures HasStatus(rows, id, "staged") {
      DecodedMember(ids, decodes, id);
      assert OverdueRow(rows, id, cutoff);
    }
  }

  lemma {:induction false} SizeOfDistinct(ids: seq<string>)
    requires Distinct(ids)
    ensures |SetOf(ids)| == |ids|
  {
    if ids == [] {
      assert SetOf(ids) == {};
    } else {
      var init, last := ids[..|ids| - 1], ids[|ids| - 1];
      DistinctInit(ids);
      SizeOfDistinct(init);
      assert ids == init + [last];
      assert SetOf(ids) == SetOf(init) + {last};
    }
  }

  /** What a bulk activation leaves: every listed row that was staged is active, the others are untouched. */
  lemma {:induction false} ActivatedAllAt(rows: Rows, ids: seq<string>, clock: nat -> int, id: string)
    ensures id in ActivatedAll(rows, ids, clock) <==> id in rows
    ensures id in rows ==>
      var after := ActivatedAll(rows, ids, clock)[id];
      if id in ids && rows[id].status == "staged"
      then after.status == "active" && after.activatedAt.Some? && after.stagedAt == rows[id].stagedAt
      else after == rows[id]
  {
    if ids != [] {
      ActivatedAllAt(rows, ids[..|ids| - 1], clock, id);
      MemberSplit(ids, id);
    }
  }

  lemma BulkStep(rows: Rows, ids: seq<string>, i: int, clock: nat -> int)
    requires 0 <= i < |ids|
    ensures ActivatedAll(rows, ids[..i + 1], clock) == Activated(ActivatedAll(rows, ids[..i], clock), ids[i], clock(i))
  {
    assert ids[..i + 1][..i] == ids[..i];
  }

  lemma OneMoreStaged(rows: Rows, ids: seq<string>, i: int)
    requires 0 <= i < |ids| && Distinct(ids)
    ensures |StagedAmong(rows, ids[..i + 1])| ==
      |StagedAmong(rows, ids[..i])| + if HasStatus(rows, ids[i], "staged") then 1 else 0
  {
    assert ids[..i + 1] == ids[..i] + [ids[i]];
    assert ids[i] !in ids[..i];
    assert StagedAmong(rows, ids[..i + 1]) ==
      StagedAmong(rows, ids[..i]) + if HasStatus(rows, ids[i], "staged") then {ids[i]} else {};
  }

  /** Earlier entries of a list without repetition leave the next rule as it was. */
  lemma NextUntouched(rows: Rows, ids: seq<string>, i: int, clock: nat -> int)
    requires 0 <= i < |ids| && Distinct(ids)
    ensures HasStatus(ActivatedAll(rows, ids[..i], clock), ids[i], "staged") <==> HasStatus(rows, ids[i], "staged")
  {
    assert ids[i] !in ids[..i];
    ActivatedAllAt(rows, ids[..i], clock, ids[i]);
  }

  // ---------------------------------------------------------------------------
  // Progress: ceil(n / 100) ticks
  // ---------------------------------------------------------------------------

  /** A tick takes its rows out of the overdue ones and adds none. */
  lemma TickRemoves(rows: Rows, ids: seq<string>, clock: nat -> int, cutoff: int)
    ensures Overdue(ActivatedAll(rows, ids, clock), cutoff) == Overdue(rows, cutoff) - SetOf(ids)
  {
    var after := ActivatedAll(rows, ids, clock);
    forall id ensures id in Overdue(after, cutoff) <==> id in Overdue(rows, cutoff) - SetOf(ids) {
      ActivatedAllAt(rows, ids, clock, id);
    }
  }

  /** Oldest first: a batch that leaves out a rule overdue at `cutoff` is full of such rules. */
  lemma BatchWithin(rows: Rows, cutoff: int, later: int, ids: seq<string>, id: string)
    requires cutoff <= later && IsBatch(rows, later, ids)
    requires id in Overdue(rows, cutoff) && id !in ids
    ensures |ids| == BATCH_LIMIT && SetOf(ids) <= Overdue(rows, cutoff)
  {
    assert id in Overdue(rows, later);
    forall y | y in SetOf(ids) ensures y in Overdue(rows, cutoff) {
      assert OverdueRow(rows, y, later);
      assert StagedSince(rows, y) <= StagedSince(rows, id);
    }
  }

  lemma RemovedSize(all: set<string>, gone: set<string>)
    requires gone <= all
    ensures |all - gone| == |all| - |gone|
  {
    assert all == (all - gone) + gone;
  }

  /** Rules that become overdue later do not hold up those overdue at `cutoff`. */
  lemma TickProgress(rows: Rows, cutoff: int, later: int, ids: seq<string>, clock: nat -> int)
    requires cutoff <= later && IsBatch(rows, later, ids)
    ensures var left := |Overdue(ActivatedAll(rows, ids, clock), cutoff)|;
      left == 0 || left + BATCH_LIMIT <= |Overdue(rows, cutoff)|
  {
    var over := Overdue(rows, cutoff);
    TickRemoves(rows, ids, clock, cutoff);
    if over - SetOf(ids) != {} {
      var id :| id in over - SetOf(ids);
      BatchWithin(rows, cutoff, later, ids, id);
      SizeOfDistinct(ids);
      RemovedSize(over, SetOf(ids));
    }
  }

  datatype TickStep = TickStep(now: int, ids: seq<string>, clock: nat -> int)

  function RunTicks(rows: Rows, ticks: seq<TickStep>): Rows {
    if ticks == [] then rows
    else ActivatedAll(RunTicks(rows, ticks[..|ticks| - 1]), ticks[|ticks| - 1].ids, ticks[|ticks| - 1].clock)
  }

  ghost predicate AreTicks(rows: Rows, ticks: seq<TickStep>) {
    ticks == [] ||
    (AreTicks(rows, ticks[..|ticks| - 1]) &&
     IsBatch(RunTicks(rows, ticks[..|ticks| - 1]), ticks[|ticks| - 1].now - STAGING_PERIOD, ticks[|ticks| - 1].ids))
  }

  lemma {:induction false} TicksLeave(rows: Rows, ticks: seq<TickStep>, now: int)
    requires AreTicks(rows, ticks) && forall i :: 0 <= i < |ticks| ==> now <= ticks[i].now
    ensures var left := |Overdue(RunTicks(rows, ticks), now - STAGING_PERIOD)|;
      left == 0 || left + BATCH_LIMIT * |ticks| <= |Overdue(rows, now - STAGING_PERIOD)|
  {
    if ticks != [] {
      var n := |ticks| - 1;
      TicksLeave(rows, ticks[..n], now);
      TickProgress(RunTicks(rows, ticks[..n]), now - STAGING_PERIOD, ticks[n].now - STAGING_PERIOD, ticks[n].ids,
                   ticks[n].clock);
    }
  }

  lemma {:induction false} TicksOnlyActivate(rows: Rows, ticks: seq<TickStep>, id: string)
    requires id in rows && rows[id].status == "staged"
    ensures id in RunTicks(rows, ticks)
    ensures RunTicks(rows, ticks)[id] == rows[id] || RunTicks(rows, ticks)[id].status == "active"
  {
    if ticks != [] {
      var n := |ticks| - 1;
      TicksOnlyActivate(rows, ticks[..n], id);
      ActivatedAllAt(RunTicks(rows, ticks[..n]), ticks[n].ids, ticks[n].clock, id);
    }
  }

  /** The rules staged for more than 48 hours at `now`. */
  ghost function StagedTooLong(rows: Rows, now: int): set<string> {
    set id | id in rows && rows[id].status == "staged" && rows[id].stagedAt.Some? &&
             now - rows[id].stagedAt.value > 48 * 60 * 60 * 1000
  }

  /** All n rules staged for more than 48 hours at `now` are active after ceil(n / 100) undisturbed ticks,
      whatever else becomes overdue meanwhile. */
  lemma OverdueAllActivated(rows: Rows, ticks: seq<TickStep>, now: int, id: string)
    requires AreTicks(rows, ticks) && forall i :: 0 <= i < |ticks| ==> now <= ticks[i].now
    requires id in StagedTooLong(rows, now)
    requires 100 * |ticks| >= |StagedTooLong(rows, now)|
    ensures id in RunTicks(rows, ticks) && RunTicks(rows, ticks)[id].status == "active"
  {
    assert StagedTooLong(rows, now) == Overdue(rows, now - STAGING_PERIOD);
    TicksLeave(rows, ticks, now);
    TicksOnlyActivate(rows, ticks, id);
    var left := Overdue(RunTicks(rows, ticks), now - STAGING_PERIOD);
    assert left == {};
    assert id !in left;
  }

  // ---------------------------------------------------------------------------
  // The query always has such an answer
  // ---------------------------------------------------------------------------

  lemma {:induction false} OldestOf(rows: Rows, pool: set<string>) returns (id: string)
    requires pool != {}
    ensures id in pool && forall x :: x in pool ==> StagedSince(rows, id) <= StagedSince(rows, x)
  {
    id :| id in pool;
    if pool != {id} {
      var other := OldestOf(rows, pool - {id});
      assert forall x :: x in pool ==> x == id || x in pool - {id};
      id := if StagedSince(rows, other) < StagedSince(rows, id) then other else id;
    }
  }

  /** The `n` oldest of a pool, oldest first. */
  ghost predicate AreOldest(rows: Rows, pool: set<string>, n: nat, ids: seq<string>) {
    && Distinct(ids) && |ids| <= n
    && (forall id :: id in ids ==> id in pool)
    && (forall i, j :: 0 <= i < j < |ids| ==> StagedSince(rows, ids[i]) <= StagedSince(rows, ids[j]))
    && (|ids| < n ==> forall x :: x in pool ==> x in ids)
    && (forall y, x :: y in ids && x in pool && x !in ids ==> StagedSince(rows, y) <= StagedSince(rows, x))
  }

  lemma OneOlder(rows: Rows, pool: set<string>, n: nat, first: string, ids: seq<string>)
    requires first in pool && forall x :: x in pool ==> StagedSince(rows, first) <= StagedSince(rows, x)
    requires AreOldest(rows, pool - {first}, n, ids)
    ensures AreOldest(rows, pool, n + 1, [first] + ids)
  {
    var all := [first] + ids;
    assert forall x :: x in all <==> x == first || x in ids;
  }

  lemma {:induction false} OldestExist(rows: Rows, pool: set<string>, n: nat) returns (ids: seq<string>)
    ensures AreOldest(rows, pool, n, ids)
  {
    if n == 0 || pool == {} {
      ids := [];
    } else {
      var first := OldestOf(rows, pool);
      var rest := OldestExist(rows, pool - {first}, n - 1);
      OneOlder(rows, pool, n - 1, first, rest);
      ids := [first] + rest;
    }
  }

  /** Every table has an undisturbed tick's answer. */
  lemma BatchExists(rows: Rows, cutoff: int) returns (ids: seq<string>)
    ensures IsBatch(rows, cutoff, ids)
  {
    ids := OldestExist(rows, Overdue(rows, cutoff), BATCH_LIMIT);
    forall id | id in ids ensures OverdueRow(rows, id, cutoff) {
      assert id in Overdue(rows, cutoff);
    }
  }

  ghost predicate AllAt(ticks: seq<TickStep>, now: int) {
    forall i :: 0 <= i < |ticks| ==> ticks[i].now == now
  }

  lemma OneMoreTick(rows: Rows, ticks: seq<TickStep>, tick: TickStep)
    requires AreTicks(rows, ticks) && IsBatch(RunTicks(rows, ticks), tick.now - STAGING_PERIOD, tick.ids)
    ensures AreTicks(rows, ticks + [tick])
  {
    assert (ticks + [tick])[..|ticks|] == ticks;
  }

  /** So undisturbed ticks can go on for as long as wanted. */
  lemma {:induction false} TicksExist(rows: Rows, now: int, n: nat) returns (ticks: seq<TickStep>)
    ensures AreTicks(rows, ticks) && |ticks| == n && AllAt(ticks, now)
  {
    if n == 0 {
      ticks := [];
    } else {
      var before := TicksExist(rows, now, n - 1);
      var ids := BatchExists(RunTicks(rows, before), now - STAGING_PERIOD);
      var tick := TickStep(now, ids, (i: nat) => now);
      OneMoreTick(rows, before, tick);
      ticks := before + [tick];
    }
  }

  // ---------------------------------------------------------------------------
  // Safety: every interleaving
  // ---------------------------------------------------------------------------

  /** `worker` numbers the cron instances; a tick is its read and then one activation at a time. */
  datatype Step =
    | Create(rule: Rule, now: int)
    | Redefine(rule: Rule, now: int)
    | Use(id: string, now: int)
    | CronRead(worker: nat, ids: seq<string>, now: int)
    | CronActivate(worker: nat, now: int)
    | Activate(id: string, now: int)
    | RevokeActive(id: string, now: int)
    | RevokeManually(id: string, now: int)
    | Delete(id: string, now: int)

  /** A successful activation; `readAt` is when the cron read the row, None for a manual one. */
  datatype Activation = Activation(id: string, row: Rule, now: int, readAt: Option<int>)

  datatype Batch = Batch(readAt: int, ids: seq<string>)

  /** `born` holds every id ever created: ids are random, so none comes twice. */
  datatype State = State(rows: Rows, born: set<string>, batches: map<nat, Batch>, log: seq<Activation>, clock: int)

  ghost predicate Enabled(s: State, step: Step) {
    && s.clock <= step.now
    && match step
       case Create(rule, _) => rule.id !in s.born && Storable(rule)
       case Redefine(rule, _) => rule.id in s.rows
       case CronRead(worker, ids, now) => worker !in s.batches && IsSelection(s.rows, now - STAGING_PERIOD, ids)
       case CronActivate(worker, _) => worker in s.batches && s.batches[worker].ids != []
       case _ => true
  }

  function Logged(s: State, id: string, now: int, readAt: Option<int>): seq<Activation> {
    if HasStatus(s.rows, id, "staged") then s.log + [Activation(id, s.rows[id], now, readAt)] else s.log
  }

  function Apply(s: State, step: Step): State {
    match step
    case Create(rule, _) => s.(rows := s.rows[rule.id := rule], born := s.born + {rule.id})
    case Redefine(rule, _) =>
      if rule.id in s.rows then s.(rows := s.rows[rule.id := Redefined(s.rows[rule.id], rule)]) else s
    case Use(id, _) => if id in s.rows then s.(rows := s.rows[id := Used(s.rows[id])]) else s
    case CronRead(worker, ids, now) => s.(batches := s.batches[worker := Batch(now, ids)])
    case CronActivate(worker, now) =>
      if worker !in s.batches || s.batches[worker].ids == [] then s
      else
        var b := s.batches[worker];
        s.(rows := Activated(s.rows, b.ids[0], now), log := Logged(s, b.ids[0], now, Some(b.readAt)),
           batches := if |b.ids| == 1 then s.batches - {worker} else s.batches[worker := b.(ids := b.ids[1..])])
    case Activate(id, now) => s.(rows := Activated(s.rows, id, now), log := Logged(s, id, now, None))
    case RevokeActive(id, now) => s.(rows := RevokedActive(s.rows, id, now))
    case RevokeManually(id, now) => s.(rows := RevokedManually(s.rows, id, now))
    case Delete(id, _) => s.(rows := s.rows - {id})
  }

  function Next(s: State, step: Step): State {
    Apply(s, step).(clock := step.now)
  }

  function Run(steps: seq<Step>): State {
    if steps == [] then State(map[], {}, map[], [], 0)
    else Next(Run(steps[..|steps| - 1]), steps[|steps| - 1])
  }

  ghost predicate IsTrace(steps: seq<Step>) {
    steps == [] ||
    (IsTrace(steps[..|steps| - 1]) && Enabled(Run(steps[..|steps| - 1]), steps[|steps| - 1]))
  }

  /** The rule a step tries to activate. */
  function Target(s: State, step: Step): Option<string> {
    if step.Activate? then Some(step.id)
    else if step.CronActivate? && step.worker in s.batches && s.batches[step.worker].ids != []
    then Some(s.batches[step.worker].ids[0]) else None
  }

  /** The row with an id, if there is one. */
  function RowOf(rows: Rows, id: string): Option<Rule> { if id in rows then Some(rows[id]) else None }

  /** What a step leaves of the row with an id. */
  function RowAfter(s: State, step: Step, id: string): Option<Rule> {
    var before := RowOf(s.rows, id);
    match step
    case Create(rule, _) => if id == rule.id then Some(rule) else before
    case Delete(gone, _) => if id == gone then None else before
    case CronRead(_, _, _) => before
    case _ =>
      if before.None? then None
      else
        var row := before.value;
        match step
        case Redefine(rule, _) =>
          Some(if id != rule.id then row
               else row.(name := rule.name, condition := rule.condition, actionType := rule.actionType,
                         actionConfig := rule.actionConfig, threshold := rule.threshold))
        case Use(used, _) => Some(if id == used then row.(usageCount := row.usageCount + 1) else row)
        case RevokeActive(revoked, now) =>
          Some(if id == revoked && row.status == "active"
               then row.(status := "revoked", revokedAt := Some(now)) else row)
        case RevokeManually(revoked, now) =>
          Some(if id == revoked && (row.status == "active" || row.status == "staged")
               then row.(status := "revoked", revokedAt := Some(now)) else row)
        case _ =>
          Some(if Target(s, step) == Some(id) && row.status == "staged"
               then row.(status := "active", activatedAt := Some(step.now)) else row)
  }

  /** The batch of a cron instance after a step: what it read, less the rules it has got to. */
  function BatchAfter(s: State, step: Step, worker: nat): Option<Batch> {
    if step.CronRead? && step.worker == worker then Some(Batch(step.now, step.ids))
    else if worker !in s.batches then None
    else if step.CronActivate? && step.worker == worker then
      if |s.batches[worker].ids| <= 1 then None else Some(s.batches[worker].(ids := s.batches[worker].ids[1..]))
    else Some(s.batches[worker])
  }

  /** Each step does this to every row, logs exactly the activation it makes, and moves its own batch only. */
  lemma StepEffect(s: State, step: Step, id: string, worker: nat)
    requires Enabled(s, step)
    ensures RowOf(Next(s, step).rows, id) == RowAfter(s, step, id)
    ensures (if worker in Next(s, step).batches then Some(Next(s, step).batches[worker]) else None) ==
            BatchAfter(s, step, worker)
    ensures var t := Target(s, step);
      if t.Some? && t.value in s.rows && s.rows[t.value].status == "staged"
      then exists readAt :: Next(s, step).log == s.log + [Activation(t.value, s.rows[t.value], step.now, readAt)]
      else Next(s, step).log == s.log
  {
    var t := Target(s, step);
    if t.Some? && t.value in s.rows && s.rows[t.value].status == "staged" {
      var readAt := if step.Activate? then None else Some(s.batches[step.worker].readAt);
      assert Next(s, step).log == s.log + [Activation(t.value, s.rows[t.value], step.now, readAt)];
    }
  }

  ghost predicate RowsBorn(s: State) {
    forall k :: k in s.rows ==> k in s.born
  }

  lemma {:induction false} RunRowsBorn(steps: seq<Step>)
    requires IsTrace(steps)
    ensures RowsBorn(Run(steps))
  {
    if steps != [] {
      RunRowsBorn(steps[..|steps| - 1]);
    }
  }

  /** The steps a row can take: staged rows are activated or revoked, active ones revoked, and no
      step leaves revoked or rewrites a time stamp. */
  ghost predicate RowStep(a: Rule, b: Rule) {
    && a.stagedAt == b.stagedAt
    && (a.status == b.status ==> a.activatedAt == b.activatedAt && a.revokedAt == b.revokedAt)
    && (a.status == b.status || (a.status == "staged" && b.status == "active") ||
        ((a.status == "staged" || a.status == "active") && b.status == "revoked"))
  }

  lemma OneRowStep(s: State, step: Step, id: string)
    requires Enabled(s, step) && RowsBorn(s) && id in s.rows && id in Next(s, step).rows
    ensures RowStep(s.rows[id], Next(s, step).rows[id])
  {
  }

  lemma DeletedStays(s: State, step: Step, id: string)
    requires Enabled(s, step) && id in s.born && id !in s.rows
    ensures id !in Next(s, step).rows && id in Next(s, step).born
  {
  }

  /** Revoked is terminal under every interleaving: the row keeps status and time stamps until it is
      deleted, and a deleted rule does not come back. */
  lemma {:induction false} RevokedIsTerminal(steps: seq<Step>, i: int, id: string)
    requires IsTrace(steps) && 0 <= i <= |steps|
    requires HasStatus(Run(steps[..i]).rows, id, "revoked")
    ensures id in Run(steps).born
    ensures id in Run(steps).rows ==>
      Run(steps).rows[id].status == "revoked" && Run(steps).rows[id].revokedAt == Run(steps[..i]).rows[id].revokedAt
  {
    if i == |steps| {
      assert steps[..i] == steps;
      RunRowsBorn(steps);
    } else {
      var init := steps[..|steps| - 1];
      assert init[..i] == steps[..i];
      RevokedIsTerminal(init, i, id);
      RunRowsBorn(init);
      if id in Run(init).rows {
        if id in Run(steps).rows {
          OneRowStep(Run(init), steps[|steps| - 1], id);
        }
      } else {
        DeletedStays(Run(init), steps[|steps| - 1], id);
      }
    }
  }

  function ActivationId(a: Activation): string { a.id }

  /** What has been activated is not staged any more. */
  ghost predicate LogSound(s: State) {
    forall k :: k in Ids(ActivationId, s.log) ==> k in s.born && !HasStatus(s.rows, k, "staged")
  }

  lemma StagedIsFresh(s: State, step: Step, k: string)
    requires Enabled(s, step) && k in s.born && !HasStatus(s.rows, k, "staged")
    ensures k in Next(s, step).born && !HasStatus(Next(s, step).rows, k, "staged")
  {
  }

  lemma LogGrows(s: State, id: string, now: int, readAt: Option<int>)
    ensures Ids(ActivationId, Logged(s, id, now, readAt)) ==
      Ids(ActivationId, s.log) + if HasStatus(s.rows, id, "staged") then [id] else []
  {
    if HasStatus(s.rows, id, "staged") {
      var a := Activation(id, s.rows[id], now, readAt);
      assert (s.log + [a])[..|s.log|] == s.log;
    } else {
      assert Ids(ActivationId, s.log) + [] == Ids(ActivationId, s.log);
    }
  }

  lemma StepActivates(s: State, step: Step)
    ensures var t := Target(s, step);
      Ids(ActivationId, Next(s, step).log) ==
      Ids(ActivationId, s.log) + if t.Some? && HasStatus(s.rows, t.value, "staged") then [t.value] else []
    ensures Target(s, step).Some? ==> !HasStatus(Next(s, step).rows, Target(s, step).value, "staged")
  {
    var t := Target(s, step);
    if t.Some? {
      LogGrows(s, t.value, step.now, if step.Activate? then None else Some(s.batches[step.worker].readAt));
    } else {
      assert Ids(ActivationId, s.log) + [] == Ids(ActivationId, s.log);
    }
  }

  lemma {:induction false} RunLogSound(steps: seq<Step>)
    requires IsTrace(steps)
    ensures LogSound(Run(steps))
  {
    if steps != [] {
      var s, step := Run(steps[..|steps| - 1]), steps[|steps| - 1];
      RunLogSound(steps[..|steps| - 1]);
      RunRowsBorn(steps[..|steps| - 1]);
      StepActivates(s, step);
      forall k | k in Ids(ActivationId, Next(s, step).log)
        ensures k in Next(s, step).born && !HasStatus(Next(s, step).rows, k, "staged") {
        if k in Ids(ActivationId, s.log) {
          StagedIsFresh(s, step, k);
        }
      }
    }
  }

  /** Each rule is activated at most once, by whichever cron or user comes first. */
  lemma {:induction false} ActivatedAtMostOnce(steps: seq<Step>)
    requires IsTrace(steps)
    ensures Distinct(Ids(ActivationId, Run(steps).log))
  {
    if steps != [] {
      var s, step := Run(steps[..|steps| - 1]), steps[|steps| - 1];
      ActivatedAtMostOnce(steps[..|steps| - 1]);
      RunLogSound(steps[..|steps| - 1]);
      StepActivates(s, step);
    }
  }

  /** A row a waiting batch names, if it is still staged, was overdue when the batch was read. */
  ghost predicate Waited(s: State, b: Batch, id: string) {
    && id in s.born
    && (HasStatus(s.rows, id, "staged") ==> OverdueRow(s.rows, id, b.readAt - STAGING_PERIOD))
  }

  ghost predicate BatchesSound(s: State) {
    forall w :: w in s.batches ==>
      s.batches[w].readAt <= s.clock && forall id :: id in s.batches[w].ids ==> Waited(s, s.batches[w], id)
  }

  ghost predicate CronWaited(a: Activation) {
    a.readAt.Some? ==>
      a.row.stagedAt.Some? && a.readAt.value - a.row.stagedAt.value > 48 * 60 * 60 * 1000 && a.readAt.value <= a.now
  }

  ghost predicate AllWaited(log: seq<Activation>) {
    forall i :: 0 <= i < |log| ==> CronWaited(log[i])
  }

  lemma WaitedStep(s: State, step: Step, b: Batch, id: string)
    requires Enabled(s, step) && RowsBorn(s) && Waited(s, b, id)
    ensures Waited(Next(s, step), b, id)
  {
    if id in Next(s, step).rows {
      if id in s.rows {
        OneRowStep(s, step, id);
      } else {
        DeletedStays(s, step, id);
      }
    }
  }

  lemma BatchesStep(s: State, step: Step)
    requires Enabled(s, step) && RowsBorn(s) && BatchesSound(s)
    ensures BatchesSound(Next(s, step))
  {
    var t := Next(s, step);
    forall w | w in t.batches
      ensures t.batches[w].readAt <= t.clock && forall id :: id in t.batches[w].ids ==> Waited(t, t.batches[w], id) {
      if step.CronRead? && step.worker == w {
        forall id | id in step.ids ensures Waited(t, t.batches[w], id) {
          assert OverdueRow(s.rows, id, step.now - STAGING_PERIOD);
        }
      } else {
        forall id | id in t.batches[w].ids ensures Waited(t, t.batches[w], id) {
          assert id in s.batches[w].ids;
          assert Waited(s, s.batches[w], id);
          WaitedStep(s, step, s.batches[w], id);
          assert t.batches[w].readAt == s.batches[w].readAt;
        }
      }
    }
  }

  lemma LogStep(s: State, step: Step)
    requires Enabled(s, step) && BatchesSound(s) && AllWaited(s.log)
    ensures AllWaited(Next(s, step).log)
  {
    if step.CronActivate? {
      var b := s.batches[step.worker];
      assert b.ids[0] in b.ids;
      assert Waited(s, b, b.ids[0]);
    }
  }

  /** The cron activates only what had been staged for more than 48 hours when it was read. */
  lemma {:induction false} CronWaits(steps: seq<Step>)
    requires IsTrace(steps)
    ensures BatchesSound(Run(steps)) && AllWaited(Run(steps).log)
  {
    if steps != [] {
      var init := steps[..|steps| - 1];
      CronWaits(init);
      RunRowsBorn(init);
      BatchesStep(Run(init), steps[|steps| - 1]);
      LogStep(Run(init), steps[|steps| - 1]);
    }
  }
}
