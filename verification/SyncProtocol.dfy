/** Uploads in flight: `uploadChanges` (client/src/services/sync.ts) is cut at its awaits, so user
    enqueues, other uploads, retries and clean-ups interleave between the queue snapshot and the
    acknowledgement. The server may answer anything. */
module SyncProtocol {
  import opened Collections
  import opened Crdt
  import opened SyncQueues

  datatype Step =
    | Enqueue(item: Item)
    | Snapshot(sync: nat, items: seq<Item>, request: seq<Change>)
    | Respond(sync: nat, accepted: seq<string>, now: int)
    | Fail(sync: nat)
    | Retry(id: string)
    | Cleanup(now: int, maxAge: int)

  /** The locals of an `uploadChanges` call that waits for its response. */
  datatype Flight = Flight(pending: seq<Item>, request: seq<Change>)

  /** `born` records every item ever enqueued, by its generated id. */
  datatype State = State(rows: seq<Row>, born: map<string, Item>, flights: map<nat, Flight>)

  const EMPTY := State([], map[], map[])

  /** The ids `uploadChanges` completes: pending items whose card the server accepted. */
  function AcceptedIds(items: seq<Item>, accepted: seq<string>): seq<string> {
    if items == [] then []
    else
      var item := items[|items| - 1];
      var k := CardIdOf(item.payload);
      AcceptedIds(items[..|items| - 1], accepted) +
      if k.Some? && k.value != "" && k.value in accepted then [item.id] else []
  }

  ghost predicate Enabled(s: State, step: Step) {
    match step
    case Enqueue(item) => item.id !in s.born && item.retryCount == 0
    case Snapshot(sync, items, request) =>
      sync !in s.flights && IsPendingAnswer(s.rows, items) && items != [] && IsPayloadOf(items, request)
    case Respond(sync, _, _) => sync in s.flights
    case Fail(sync) => sync in s.flights
    case Retry(_) => true
    case Cleanup(_, _) => true
  }

  ghost function Next(s: State, step: Step): State {
    match step
    case Enqueue(item) => s.(rows := s.rows + [Row(item, None)], born := s.born[item.id := item])
    case Snapshot(sync, items, request) => s.(flights := s.flights[sync := Flight(items, request)])
    case Respond(sync, accepted, now) =>
      if sync !in s.flights then s
      else s.(rows := Completed(s.rows, AcceptedIds(s.flights[sync].pending, accepted), now),
              flights := s.flights - {sync})
    case Fail(sync) => s.(flights := s.flights - {sync})
    case Retry(id) => s.(rows := Retried(s.rows, id))
    case Cleanup(now, maxAge) => s.(rows := Swept(s.rows, now - maxAge))
  }

  ghost function Run(steps: seq<Step>): State {
    if steps == [] then EMPTY else Next(Run(steps[..|steps| - 1]), steps[|steps| - 1])
  }

  ghost predicate IsTrace(steps: seq<Step>) {
    steps == [] ||
    (IsTrace(steps[..|steps| - 1]) && Enabled(Run(steps[..|steps| - 1]), steps[|steps| - 1]))
  }

  // ---------------------------------------------------------------------------
  // Evidence of an acknowledgement
  // ---------------------------------------------------------------------------

  /** Equal up to the retry counter, the only part of an item that changes. */
  predicate SameItem(a: Item, b: Item) { a.(retryCount := b.retryCount) == b }

  predicate Covers(sent: Change, c: Change) { sent.cardId == c.cardId && sent.version >= c.version }

  /** The request carries a change for the item's card at the item's version or above. */
  ghost predicate Carries(request: seq<Change>, item: Item) {
    var c := ChangeOf(item.payload);
    c.Some? && exists n :: 0 <= n < |request| && Covers(request[n], c.value)
  }

  /** An upload took the item from the pending rows at step i, its request carried the item's change,
      and its response at step j accepted the item's card. */
  ghost predicate AckedBy(steps: seq<Step>, i: int, j: int, item: Item) {
    && 0 <= i < j < |steps| && steps[i].Snapshot? && steps[j].Respond?
    && steps[i].sync == steps[j].sync
    && IsPendingAnswer(Run(steps[..i]).rows, steps[i].items)
    && (exists it :: it in steps[i].items && SameItem(it, item))
    && CardIdOf(item.payload).Some? && CardIdOf(item.payload).value in steps[j].accepted
    && Carries(steps[i].request, item)
  }

  ghost predicate Acked(steps: seq<Step>, item: Item) {
    exists i, j :: AckedBy(steps, i, j, item)
  }

  lemma AckedStays(steps: seq<Step>, step: Step, item: Item)
    requires Acked(steps, item)
    ensures Acked(steps + [step], item)
  {
    var i, j :| AckedBy(steps, i, j, item);
    assert (steps + [step])[..i] == steps[..i];
    assert AckedBy(steps + [step], i, j, item);
  }

  // ---------------------------------------------------------------------------
  // Invariants
  // ---------------------------------------------------------------------------

  /** Rows and snapshots hold only items that were enqueued, unchanged but for the retry counter. */
  ghost predicate Genuine(s: State, item: Item) {
    item.id in s.born && SameItem(item, s.born[item.id])
  }

  ghost predicate AllGenuine(s: State) {
    && (forall k :: k in s.born ==> s.born[k].id == k)
    && (forall r :: r in s.rows ==> Genuine(s, r.item))
    && (forall f :: f in s.flights ==> forall it :: it in s.flights[f].pending ==> Genuine(s, it))
  }

  lemma GenuineRow(s: State, step: Step, r: Row)
    requires AllGenuine(s) && Enabled(s, step) && r in Next(s, step).rows
    ensures Genuine(Next(s, step), r.item)
  {
    if step.Cleanup? {
      SweptMember(s.rows, step.now - step.maxAge, r);
    } else {
      var i :| 0 <= i < |Next(s, step).rows| && Next(s, step).rows[i] == r;
      if i < |s.rows| {
        assert s.rows[i] in s.rows;
      }
    }
  }

  lemma GenuineFlight(s: State, step: Step, f: nat, it: Item)
    requires AllGenuine(s) && Enabled(s, step)
    requires f in Next(s, step).flights && it in Next(s, step).flights[f].pending
    ensures Genuine(Next(s, step), it)
  {
    if step.Snapshot? && step.sync == f {
      PendingAnswerMember(s.rows, step.items, it);
    } else {
      assert f in s.flights;
    }
  }

  lemma BornHaveIds(s: State, step: Step)
    requires AllGenuine(s) && Enabled(s, step)
    ensures forall k :: k in Next(s, step).born ==> Next(s, step).born[k].id == k
  {
  }

  lemma GenuineStep(s: State, step: Step)
    requires AllGenuine(s) && Enabled(s, step)
    ensures AllGenuine(Next(s, step))
  {
    var t := Next(s, step);
    BornHaveIds(s, step);
    forall r | r in t.rows ensures Genuine(t, r.item) {
      GenuineRow(s, step, r);
    }
    forall f | f in t.flights ensures forall it :: it in t.flights[f].pending ==> Genuine(t, it) {
      forall it | it in t.flights[f].pending ensures Genuine(t, it) {
        GenuineFlight(s, step, f, it);
      }
    }
  }

  lemma {:induction false} RunGenuine(steps: seq<Step>)
    requires IsTrace(steps)
    ensures AllGenuine(Run(steps))
  {
    if steps != [] {
      RunGenuine(steps[..|steps| - 1]);
      GenuineStep(Run(steps[..|steps| - 1]), steps[|steps| - 1]);
    }
  }

  /** Another upload's steps leave a waiting one as it is. */
  lemma WaitsOn(s: State, step: Step, sync: nat)
    requires sync in Next(s, step).flights && !(step.Snapshot? && step.sync == sync)
    ensures sync in s.flights && s.flights[sync] == Next(s, step).flights[sync]
  {
  }

  /** Step i is the snapshot of a waiting upload. */
  ghost predicate BeganAt(steps: seq<Step>, sync: nat, i: int) {
    && sync in Run(steps).flights && 0 <= i < |steps|
    && steps[i] == Snapshot(sync, Run(steps).flights[sync].pending, Run(steps).flights[sync].request)
    && Enabled(Run(steps[..i]), steps[i])
  }

  lemma RunOneMore(steps: seq<Step>, step: Step)
    ensures Run(steps + [step]) == Next(Run(steps), step)
    ensures IsTrace(steps + [step]) <==> IsTrace(steps) && Enabled(Run(steps), step)
  {
    assert (steps + [step])[..|steps|] == steps;
  }

  lemma BeganEarlier(steps: seq<Step>, step: Step, sync: nat, i: int)
    requires BeganAt(steps, sync, i) && sync in Next(Run(steps), step).flights
    requires !(step.Snapshot? && step.sync == sync)
    ensures BeganAt(steps + [step], sync, i)
  {
    RunOneMore(steps, step);
    WaitsOn(Run(steps), step, sync);
    assert (steps + [step])[..i] == steps[..i];
  }

  /** The step at which a waiting upload took its snapshot. */
  lemma {:induction false} FlightBegan(steps: seq<Step>, sync: nat) returns (i: int)
    requires IsTrace(steps) && sync in Run(steps).flights
    ensures BeganAt(steps, sync, i)
  {
    var n := |steps| - 1;
    if steps[n].Snapshot? && steps[n].sync == sync {
      i := n;
    } else {
      WaitsOn(Run(steps[..n]), steps[n], sync);
      i := FlightBegan(steps[..n], sync);
      BeganEarlier(steps[..n], steps[n], sync, i);
      SplitLast(steps);
    }
  }

  lemma {:induction false} AcceptedIdsMember(items: seq<Item>, accepted: seq<string>, id: string) returns (it: Item)
    requires id in AcceptedIds(items, accepted)
    ensures it in items && it.id == id
    ensures CardIdOf(it.payload).Some? && CardIdOf(it.payload).value != "" && CardIdOf(it.payload).value in accepted
  {
    var n := |items| - 1;
    if id in AcceptedIds(items[..n], accepted) {
      it := AcceptedIdsMember(items[..n], accepted, id);
    } else {
      it := items[n];
    }
  }

  lemma {:induction false} ChangesMember(items: seq<Item>, it: Item)
    requires it in items && ChangeOf(it.payload).Some?
    ensures ChangeOf(it.payload).value in Changes(items)
  {
    var n := |items| - 1;
    MemberSplit(items, it);
    if it in items[..n] {
      ChangesMember(items[..n], it);
    }
  }

  /** The evidence put together. */
  lemma EvidenceGiven(steps: seq<Step>, step: Step, i: int, it: Item, item: Item)
    requires 0 <= i < |steps| && steps[i].Snapshot? && step.Respond? && steps[i].sync == step.sync
    requires IsPendingAnswer(Run(steps[..i]).rows, steps[i].items) && it in steps[i].items && SameItem(it, item)
    requires CardIdOf(item.payload).Some? && CardIdOf(item.payload).value in step.accepted
    requires Carries(steps[i].request, item)
    ensures Acked(steps + [step], item)
  {
    assert (steps + [step])[..i] == steps[..i];
    assert AckedBy(steps + [step], i, |steps|, item);
  }

  /** The request of an upload carries every accepted item of its snapshot. */
  lemma RequestCarries(items: seq<Item>, request: seq<Change>, it: Item)
    requires IsPayloadOf(items, request) && it in items
    requires CardIdOf(it.payload).Some? && CardIdOf(it.payload).value != ""
    ensures Carries(request, it)
  {
    ChangesMember(items, it);
    var n := PayloadCovers(items, request, ChangeOf(it.payload).value);
    assert Covers(request[n], ChangeOf(it.payload).value);
  }

  /** A card the server accepted is the one an item of the snapshot with this id is about. */
  ghost predicate Accepts(items: seq<Item>, accepted: seq<string>, id: string) {
    exists it, card :: it in items && it.id == id && card in accepted && card != "" && IsAbout(it.payload, card)
  }

  lemma {:induction false} AcceptedIdsAccept(items: seq<Item>, accepted: seq<string>, id: string)
    ensures id in AcceptedIds(items, accepted) <==> Accepts(items, accepted, id)
  {
    if id in AcceptedIds(items, accepted) {
      var it := AcceptedIdsMember(items, accepted, id);
      assert IsAbout(it.payload, CardIdOf(it.payload).value);
    }
    if Accepts(items, accepted, id) {
      var it, card :| it in items && it.id == id && card in accepted && card != "" && IsAbout(it.payload, card);
      AcceptedIdsHas(items, accepted, it);
    }
  }

  lemma {:induction false} AcceptedIdsHas(items: seq<Item>, accepted: seq<string>, it: Item)
    requires it in items && CardIdOf(it.payload).Some? && CardIdOf(it.payload).value != ""
    requires CardIdOf(it.payload).value in accepted
    ensures it.id in AcceptedIds(items, accepted)
  {
    var n := |items| - 1;
    MemberSplit(items, it);
    if it in items[..n] {
      AcceptedIdsHas(items[..n], accepted, it);
    }
  }

  /** A response completes exactly the rows its upload had taken whose card it accepts, whatever was queued,
      retried or answered since. */
  lemma ResponseCompletes(s: State, step: Step, i: int)
    requires Enabled(s, step) && step.Respond? && 0 <= i < |s.rows|
    ensures var r := Next(s, step).rows;
      && |r| == |s.rows| && r[i].item == s.rows[i].item
      && r[i].completedAt ==
           if Accepts(s.flights[step.sync].pending, step.accepted, s.rows[i].item.id) then Some(step.now)
           else s.rows[i].completedAt
  {
    AcceptedIdsAccept(s.flights[step.sync].pending, step.accepted, s.rows[i].item.id);
  }

  /** What the other steps do to the rows. */
  lemma OtherStepsOnRows(s: State, step: Step)
    requires Enabled(s, step)
    ensures step.Snapshot? || step.Fail? ==> Next(s, step).rows == s.rows
    ensures step.Enqueue? ==> Next(s, step).rows == s.rows + [Row(step.item, None)]
    ensures step.Retry? ==> |Next(s, step).rows| == |s.rows| && forall i :: 0 <= i < |s.rows| ==>
      Next(s, step).rows[i] ==
        if s.rows[i].item.id != step.id then s.rows[i]
        else s.rows[i].(item := s.rows[i].item.(retryCount := s.rows[i].item.retryCount + 1))
    ensures step.Cleanup? ==> forall r :: r in Next(s, step).rows <==>
      r in s.rows && (r.completedAt.None? || r.completedAt.value >= step.now - step.maxAge)
  {
    if step.Cleanup? {
      SweptMembers(s.rows, step.now - step.maxAge);
    }
  }

  /** What a response completes, it completes with evidence. */
  lemma ResponseIsEvidence(steps: seq<Step>, step: Step, id: string)
    requires IsTrace(steps) && step.Respond? && Enabled(Run(steps), step)
    requires id in AcceptedIds(Run(steps).flights[step.sync].pending, step.accepted)
    ensures id in Run(steps).born && Acked(steps + [step], Run(steps).born[id])
  {
    var s, f := Run(steps), Run(steps).flights[step.sync];
    var it := AcceptedIdsMember(f.pending, step.accepted, id);
    var i := FlightBegan(steps, step.sync);
    RunGenuine(steps);
    assert Genuine(s, it);
    RequestCarries(f.pending, f.request, it);
    EvidenceGiven(steps, step, i, it, s.born[id]);
  }

  /** The born items only grow and never change. */
  lemma BornStays(s: State, step: Step, id: string)
    requires Enabled(s, step) && id in s.born
    ensures id in Next(s, step).born && Next(s, step).born[id] == s.born[id]
  {
  }

  /** A completed row that this step's response does not account for was complete before it. */
  lemma CompletedBefore(s: State, step: Step, r: Row) returns (r0: Row)
    requires Enabled(s, step) && r in Next(s, step).rows && r.completedAt.Some?
    requires !(step.Respond? && r.item.id in AcceptedIds(s.flights[step.sync].pending, step.accepted))
    ensures r0 in s.rows && r0.item.id == r.item.id && r0.completedAt.Some?
  {
    if step.Cleanup? {
      SweptMember(s.rows, step.now - step.maxAge, r);
      r0 := r;
    } else {
      var i :| 0 <= i < |Next(s, step).rows| && Next(s, step).rows[i] == r;
      r0 := s.rows[i];
    }
  }

  /** Ack soundness: under every interleaving, a completed row was acknowledged. */
  lemma {:induction false} CompletedOnlyWhenAcked(steps: seq<Step>, r: Row)
    requires IsTrace(steps) && r in Run(steps).rows && r.completedAt.Some?
    ensures r.item.id in Run(steps).born && Acked(steps, Run(steps).born[r.item.id])
  {
    var before, step := steps[..|steps| - 1], steps[|steps| - 1];
    assert steps == before + [step];
    if step.Respond? && r.item.id in AcceptedIds(Run(before).flights[step.sync].pending, step.accepted) {
      ResponseIsEvidence(before, step, r.item.id);
    } else {
      var r0 := CompletedBefore(Run(before), step, r);
      CompletedOnlyWhenAcked(before, r0);
      AckedStays(before, step, Run(before).born[r.item.id]);
      BornStays(Run(before), step, r.item.id);
    }
  }

  ghost predicate PendingRow(rows: seq<Row>, id: string) {
    exists r :: r in rows && r.item.id == id && r.completedAt.None?
  }

  lemma PendingRowStep(s: State, step: Step, id: string)
    requires Enabled(s, step) && PendingRow(s.rows, id)
    requires !(step.Respond? && id in AcceptedIds(s.flights[step.sync].pending, step.accepted))
    ensures PendingRow(Next(s, step).rows, id)
  {
    var r :| r in s.rows && r.item.id == id && r.completedAt.None?;
    if step.Cleanup? {
      SweptMember(s.rows, step.now - step.maxAge, r);
    } else {
      var i :| 0 <= i < |s.rows| && s.rows[i] == r;
      PendingAt(Next(s, step).rows, i, id);
    }
  }

  lemma PendingAt(rows: seq<Row>, i: int, id: string)
    requires 0 <= i < |rows| && rows[i].item.id == id && rows[i].completedAt.None?
    ensures PendingRow(rows, id)
  {
    assert rows[i] in rows;
  }

  /** No enqueued item is ever lost: it waits in the queue or has been acknowledged. */
  lemma {:induction false} NothingLost(steps: seq<Step>, id: string)
    requires IsTrace(steps) && id in Run(steps).born
    ensures PendingRow(Run(steps).rows, id) || Acked(steps, Run(steps).born[id])
  {
    var n := |steps| - 1;
    var before, step := steps[..n], steps[n];
    assert steps == before + [step];
    var s := Run(before);
    if id !in s.born {
      assert Row(step.item, None) in Run(steps).rows;
    } else {
      NothingLost(before, id);
      BornStays(s, step, id);
      if Acked(before, s.born[id]) {
        AckedStays(before, step, s.born[id]);
      } else if step.Respond? && id in AcceptedIds(s.flights[step.sync].pending, step.accepted) {
        ResponseIsEvidence(before, step, id);
      } else {
        PendingRowStep(s, step, id);
      }
    }
  }

  lemma {:induction false} BornBefore(steps: seq<Step>, i: int, id: string)
    requires IsTrace(steps) && 0 <= i <= |steps| && id in Run(steps[..i]).born
    ensures id in Run(steps).born && Run(steps).born[id] == Run(steps[..i]).born[id]
  {
    if i == |steps| {
      assert steps[..i] == steps;
    } else {
      var n := |steps| - 1;
      assert steps[..n][..i] == steps[..i];
      BornBefore(steps[..n], i, id);
      BornStays(Run(steps[..n]), steps[n], id);
    }
  }

  lemma {:induction false} TracePrefix(steps: seq<Step>, i: int)
    requires IsTrace(steps) && 0 <= i <= |steps|
    ensures IsTrace(steps[..i]) && (i < |steps| ==> Enabled(Run(steps[..i]), steps[i]))
  {
    var n := |steps| - 1;
    if i < n {
      TracePrefix(steps[..n], i);
      assert steps[..n][..i] == steps[..i];
    } else if i == |steps| {
      assert steps[..i] == steps;
    }
  }

  /** What a snapshot holds had been enqueued before it. */
  lemma SnapshotHoldsEarlier(steps: seq<Step>, i: int, it: Item)
    requires IsTrace(steps) && 0 <= i < |steps| && steps[i].Snapshot? && it in steps[i].items
    ensures it.id in Run(steps[..i]).born
  {
    TracePrefix(steps, i);
    RunGenuine(steps[..i]);
    PendingAnswerMember(Run(steps[..i]).rows, steps[i].items, it);
    assert Genuine(Run(steps[..i]), Row(it, None).item);
  }

  /** Ids are generated once: nothing knows an id before its own enqueue. */
  lemma NotBornEarlier(steps: seq<Step>, e: int, i: int)
    requires IsTrace(steps) && 0 <= i <= e < |steps| && steps[e].Enqueue?
    ensures steps[e].item.id !in Run(steps[..i]).born
  {
    TracePrefix(steps, e);
    if steps[e].item.id in Run(steps[..i]).born {
      assert steps[..e][..i] == steps[..i];
      BornBefore(steps[..e], i, steps[e].item.id);
    }
  }

  lemma BornAt(steps: seq<Step>, e: int)
    requires IsTrace(steps) && 0 <= e < |steps| && steps[e].Enqueue?
    ensures steps[e].item.id in Run(steps).born && Run(steps).born[steps[e].item.id] == steps[e].item
  {
    assert steps[..e + 1][..e] == steps[..e];
    BornBefore(steps, e + 1, steps[e].item.id);
  }

  /** The upload that acknowledges an item took its snapshot after the enqueue. */
  lemma AckedAfterEnqueue(steps: seq<Step>, e: int, i: int, j: int)
    requires IsTrace(steps) && 0 <= e < |steps| && steps[e].Enqueue?
    requires AckedBy(steps, i, j, steps[e].item)
    ensures e < i && steps[e].item.id in Ids(ItemId, steps[i].items)
  {
    var it :| it in steps[i].items && SameItem(it, steps[e].item);
    SnapshotHoldsEarlier(steps, i, it);
    if i <= e {
      NotBornEarlier(steps, e, i);
    }
    var m :| 0 <= m < |steps[i].items| && steps[i].items[m] == it;
    IdsAt(ItemId, steps[i].items, m);
  }

  /** An item enqueued at step e and not in any later snapshot is still pending, whatever
      earlier uploads were answered meanwhile. */
  lemma LateItemStaysPending(steps: seq<Step>, e: int)
    requires IsTrace(steps) && 0 <= e < |steps| && steps[e].Enqueue?
    requires forall i :: e < i < |steps| && steps[i].Snapshot? ==> steps[e].item.id !in Ids(ItemId, steps[i].items)
    ensures PendingRow(Run(steps).rows, steps[e].item.id)
  {
    BornAt(steps, e);
    NothingLost(steps, steps[e].item.id);
    if Acked(steps, steps[e].item) {
      var i, j :| AckedBy(steps, i, j, steps[e].item);
      AckedAfterEnqueue(steps, e, i, j);
    }
  }
}
