/** A decision's way from the card table to the queue over whole runs of client/src/services/sync.ts: local
    edits, upload responses and downloads in any order. */
module DecisionRuns {
  import opened Collections
  import opened Crdt
  import Laws = CrdtLaws
  import opened SyncEngines

  /** A local writer stores a row; an upload response is applied; a download merges the server's cards with
      the rows as the table yields them, applies the result and queues the uploads. */
  datatype Step =
    | Edit(row: LocalCard)
    | Answer(response: Response, now: int)
    | Download(locals: seq<LocalCard>, server: seq<Card>, version: int, now: int)

  /** The card table, and every change a download has queued. */
  datatype State = State(table: Table, queued: seq<Change>)

  ghost predicate Enabled(s: State, step: Step) {
    step.Download? ==> Distinct(Ids(LocalId, step.locals)) && Index(LocalId, step.locals).at == s.table
  }

  function Next(dp: DateParse, s: State, step: Step): State {
    match step
    case Edit(row) => s.(table := s.table[row.card.id := row])
    case Answer(response, now) => s.(table := Answered(s.table, response, now))
    case Download(locals, server, version, now) =>
      var merged := Merged(dp, locals, server);
      State(Inserted(s.table, merged.cards, version, now), s.queued + merged.toUpload)
  }

  function Run(dp: DateParse, steps: seq<Step>): State {
    if steps == [] then State(map[], []) else Next(dp, Run(dp, steps[..|steps| - 1]), steps[|steps| - 1])
  }

  ghost predicate IsTrace(dp: DateParse, steps: seq<Step>) {
    steps == [] ||
    (IsTrace(dp, steps[..|steps| - 1]) && Enabled(Run(dp, steps[..|steps| - 1]), steps[|steps| - 1]))
  }

  /** The step overwrites the card with what the server sent. */
  predicate Names(step: Step, k: string) {
    step.Answer? &&
    (k in Ids(CardId, step.response.newCards) || k in Ids(CardId, step.response.updatedCards) ||
     k in step.response.removedCards)
  }

  predicate Edits(step: Step, k: string) { step.Edit? && step.row.card.id == k }

  lemma {:induction false} TraceKeyed(dp: DateParse, steps: seq<Step>)
    requires IsTrace(dp, steps)
    ensures Keyed(Run(dp, steps).table)
  {
    if steps != [] {
      var s, step := Run(dp, steps[..|steps| - 1]), steps[|steps| - 1];
      TraceKeyed(dp, steps[..|steps| - 1]);
      if step.Answer? {
        AnsweredKeyed(s.table, step.response, step.now);
      } else if step.Download? {
        InsertedKeyed(s.table, Merged(dp, step.locals, step.server).cards, step.version, step.now);
      }
    }
  }

  lemma {:induction false} TracePrefix(dp: DateParse, steps: seq<Step>, n: int)
    requires IsTrace(dp, steps) && 0 <= n <= |steps|
    ensures IsTrace(dp, steps[..n]) && (n < |steps| ==> Enabled(Run(dp, steps[..n]), steps[n]))
  {
    var m := |steps| - 1;
    if n < m {
      TracePrefix(dp, steps[..m], n);
      assert steps[..m][..n] == steps[..n];
    } else if n == |steps| {
      assert steps[..n] == steps;
    }
  }

  /** A response that does not name a card leaves its row; one that names it leaves no decision. */
  lemma AnswerRow(t: Table, r: Response, now: int, k: string)
    ensures (k !in Ids(CardId, r.newCards) && k !in Ids(CardId, r.updatedCards) && k !in r.removedCards) ==>
      (k in Answered(t, r, now) <==> k in t) && (k in t ==> Answered(t, r, now)[k] == t[k])
    ensures HoldsDecision(Answered(t, r, now), k) ==> HoldsDecision(t, k)
  {
    AnsweredRow(t, r, now, k);
    IndexHas(CardId, r.newCards, k);
    IndexHas(CardId, r.updatedCards, k);
  }

  lemma StepWaits(dp: DateParse, s: State, step: Step, k: string)
    requires HoldsDecision(s.table, k) && !Edits(step, k) && !step.Download?
    ensures if Names(step, k) then !HoldsDecision(Next(dp, s, step).table, k)
            else k in Next(dp, s, step).table && Next(dp, s, step).table[k] == s.table[k]
  {
    if step.Answer? {
      AnswerRow(s.table, step.response, step.now, k);
      AnswerKeepsDecisionIff(s.table, step.response, step.now, k);
    }
  }

  lemma StepStaysGone(dp: DateParse, s: State, step: Step, k: string)
    requires !HoldsDecision(s.table, k) && !Edits(step, k) && !step.Download?
    ensures !HoldsDecision(Next(dp, s, step).table, k)
  {
    if step.Answer? {
      AnswerRow(s.table, step.response, step.now, k);
    }
  }

  /** Some response between two steps named the card. */
  ghost predicate NamedBetween(steps: seq<Step>, d: int, n: int, k: string)
    requires 0 <= d < n <= |steps|
  {
    exists i :: d < i < n && Names(steps[i], k)
  }

  lemma NamedOneMore(steps: seq<Step>, d: int, n: int, k: string)
    requires 0 <= d < n - 1 < |steps|
    ensures NamedBetween(steps, d, n, k) <==> NamedBetween(steps, d, n - 1, k) || Names(steps[n - 1], k)
  {
  }

  /** Between an edit and the next download the row waits unchanged, unless a response names the card:
      then its decision is gone. */
  lemma {:induction false} WaitsOrGone(dp: DateParse, steps: seq<Step>, d: int, n: int, k: string)
    requires 0 <= d < n <= |steps| && Edits(steps[d], k) && HasDecision(steps[d].row)
    requires forall i :: d < i < n ==> !Edits(steps[i], k) && !steps[i].Download?
    ensures var t := Run(dp, steps[..n]).table;
      if NamedBetween(steps, d, n, k) then !HoldsDecision(t, k) else k in t && t[k] == steps[d].row
  {
    assert steps[..n][..n - 1] == steps[..n - 1];
    if d < n - 1 {
      WaitsOrGone(dp, steps, d, n - 1, k);
      NamedOneMore(steps, d, n, k);
      if NamedBetween(steps, d, n - 1, k) {
        StepStaysGone(dp, Run(dp, steps[..n - 1]), steps[n - 1], k);
      } else {
        StepWaits(dp, Run(dp, steps[..n - 1]), steps[n - 1], k);
      }
    }
  }

  /** A download queues the decision a row holds. */
  lemma DownloadQueues(dp: DateParse, s: State, step: Step, k: string)
    requires Enabled(s, step) && step.Download?
    ensures ChangesFor(Next(dp, s, step).queued, k) == ChangesFor(s.queued, k) +
      if HoldsDecision(s.table, k)
      then [Change(k, s.table[k].version, s.table[k].card.state, s.table[k].decision, None, None)] else []
  {
    Laws.UploadsAreTheDecisions(dp, step.locals, step.server, k);
    ChangesForAppend(s.queued, Merged(dp, step.locals, step.server).toUpload, k);
  }

  lemma RunOneMore(dp: DateParse, steps: seq<Step>, e: int)
    requires 0 <= e < |steps|
    ensures Run(dp, steps[..e + 1]) == Next(dp, Run(dp, steps[..e]), steps[e])
  {
    assert steps[..e + 1][..e] == steps[..e];
  }

  /** Exactly when a decision survives: the first download after it queues it, once, with its version,
      state and text, if and only if no upload response named its card in between. */
  lemma DecisionQueuedIff(dp: DateParse, steps: seq<Step>, d: int, e: int, k: string)
    requires IsTrace(dp, steps) && 0 <= d < e < |steps|
    requires Edits(steps[d], k) && HasDecision(steps[d].row) && steps[e].Download?
    requires forall i :: d < i < e ==> !Edits(steps[i], k) && !steps[i].Download?
    ensures ChangesFor(Run(dp, steps[..e + 1]).queued, k) == ChangesFor(Run(dp, steps[..e]).queued, k) +
      if NamedBetween(steps, d, e, k) then []
      else [Change(k, steps[d].row.version, steps[d].row.card.state, steps[d].row.decision, None, None)]
  {
    TracePrefix(dp, steps, e);
    WaitsOrGone(dp, steps, d, e, k);
    RunOneMore(dp, steps, e);
    DownloadQueues(dp, Run(dp, steps[..e]), steps[e], k);
  }

  lemma DownloadCleans(dp: DateParse, s: State, step: Step, k: string)
    requires Keyed(s.table) && Enabled(s, step) && step.Download?
    ensures !HoldsDecision(Next(dp, s, step).table, k)
  {
    AppliedIsClean(dp, s.table, step.locals, step.server, step.version, step.now);
  }

  /** Without another edit a card has no decision after a download. */
  lemma {:induction false} StaysClean(dp: DateParse, steps: seq<Step>, e: int, k: string)
    requires IsTrace(dp, steps) && 0 <= e < |steps| && steps[e].Download?
    requires forall i :: e < i < |steps| ==> !Edits(steps[i], k)
    ensures !HoldsDecision(Run(dp, steps).table, k)
  {
    var init, step := steps[..|steps| - 1], steps[|steps| - 1];
    if step.Download? {
      TraceKeyed(dp, init);
      DownloadCleans(dp, Run(dp, init), step, k);
    } else {
      StaysClean(dp, init, e, k);
      StepStaysGone(dp, Run(dp, init), step, k);
    }
  }

  /** What holds no decision is not queued. */
  lemma StepQueuesNothing(dp: DateParse, s: State, step: Step, k: string)
    requires Enabled(s, step) && !HoldsDecision(s.table, k)
    ensures ChangesFor(Next(dp, s, step).queued, k) == ChangesFor(s.queued, k)
  {
    if step.Download? {
      DownloadQueues(dp, s, step, k);
      assert ChangesFor(s.queued, k) + [] == ChangesFor(s.queued, k);
    }
  }

  /** No decision is queued twice: after a download a card is queued again only after another edit of it. */
  lemma {:induction false} QueuedOnce(dp: DateParse, steps: seq<Step>, e: int, k: string)
    requires IsTrace(dp, steps) && 0 <= e < |steps| && steps[e].Download?
    requires forall i :: e < i < |steps| ==> !Edits(steps[i], k)
    ensures ChangesFor(Run(dp, steps).queued, k) == ChangesFor(Run(dp, steps[..e + 1]).queued, k)
  {
    var init := steps[..|steps| - 1];
    if e == |steps| - 1 {
      assert steps[..e + 1] == steps;
    } else {
      assert init[..e + 1] == steps[..e + 1];
      QueuedOnce(dp, init, e, k);
      StaysClean(dp, init, e, k);
      StepQueuesNothing(dp, Run(dp, init), steps[|steps| - 1], k);
    }
  }
}
