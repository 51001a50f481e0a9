/** The circuit breaker of classification/internal/nats/publisher.go. `Call` runs its function outside
    the lock, so a call is two atomic steps, begin and end, with any number of calls in flight. */
module CircuitBreakers {
  import opened Collections

  /** One critical section: a call is admitted or refused at `now`, or an admitted call comes back. */
  datatype Event = Began(now: int, admitted: bool) | Finished(now: int, ok: bool)

  datatype Phase = Closed | Open | HalfOpen

  datatype Settings = Settings(threshold: int, timeout: int, halfOpenMax: int)

  // ---------------------------------------------------------------------------
  // Specification over the trace
  // ---------------------------------------------------------------------------

  /** A limit below one acts as one: it is compared after the completion has been counted. */
  function AtLeastOne(n: int): nat {
    if n < 1 then 1 else n
  }

  predicate Failed(e: Event) { e.Finished? && !e.ok }

  predicate Succeeded(e: Event) { e.Finished? && e.ok }

  /** The outcomes of the calls that came back at or after event `since`. */
  function Outcomes(tr: seq<Event>, since: nat): seq<bool> {
    if |tr| <= since then []
    else Outcomes(tr[..|tr| - 1], since) + if tr[|tr| - 1].Finished? then [tr[|tr| - 1].ok] else []
  }

  /** The last `k` outcomes are all failures. */
  ghost predicate EndsInFailures(outcomes: seq<bool>, k: nat) {
    k <= |outcomes| && forall i :: |outcomes| - k <= i < |outcomes| ==> !outcomes[i]
  }

  /** When the call that failed last came back. */
  function LatestFailure(tr: seq<Event>): Option<int> {
    if tr == [] then None
    else if Failed(tr[|tr| - 1]) then Some(tr[|tr| - 1].now)
    else LatestFailure(tr[..|tr| - 1])
  }

  predicate CoolingDown(s: Settings, tr: seq<Event>, now: int) {
    LatestFailure(tr).Some? && now - LatestFailure(tr).value < s.timeout
  }

  /** A phase and the index of its first event. */
  datatype Mark = Mark(phase: Phase, since: nat)

  /** The phase after a trace: no counters, each change is read off the events since the last one. */
  ghost function PhaseAfter(s: Settings, tr: seq<Event>): Mark {
    if tr == [] then Mark(Closed, 0)
    else
      var before, e := PhaseAfter(s, tr[..|tr| - 1]), tr[|tr| - 1];
      match before.phase
      case Closed =>
        if Failed(e) && EndsInFailures(Outcomes(tr, before.since), AtLeastOne(s.threshold))
        then Mark(Open, |tr|) else before
      case HalfOpen =>
        if Failed(e) then Mark(Open, |tr|)
        else if Succeeded(e) && |Outcomes(tr, before.since)| >= AtLeastOne(s.halfOpenMax) then Mark(Closed, |tr|)
        else before
      case Open =>
        if e.Began? && !CoolingDown(s, tr[..|tr| - 1], e.now) then Mark(HalfOpen, |tr|) else before
  }

  /** Calls are refused exactly while the breaker is open and cooling down. */
  ghost predicate Refuses(s: Settings, tr: seq<Event>, now: int) {
    PhaseAfter(s, tr).phase == Open && CoolingDown(s, tr, now)
  }

  ghost predicate FollowsSpec(s: Settings, tr: seq<Event>) {
    tr == [] ||
    (FollowsSpec(s, tr[..|tr| - 1]) &&
     (tr[|tr| - 1].Began? ==> tr[|tr| - 1].admitted == !Refuses(s, tr[..|tr| - 1], tr[|tr| - 1].now)))
  }

  /** A clock that does not run backwards. */
  ghost predicate Monotone(tr: seq<Event>) {
    forall i, j :: 0 <= i < j < |tr| ==> tr[i].now <= tr[j].now
  }

  // ---------------------------------------------------------------------------
  // The counters refine the trace
  // ---------------------------------------------------------------------------

  function TrailingFailures(outcomes: seq<bool>): nat {
    if outcomes == [] || outcomes[|outcomes| - 1] then 0
    else 1 + TrailingFailures(outcomes[..|outcomes| - 1])
  }

  lemma {:induction false} TrailingIsBurst(outcomes: seq<bool>, k: nat)
    ensures TrailingFailures(outcomes) >= k <==> EndsInFailures(outcomes, k)
  {
    if k > 0 && outcomes != [] && !outcomes[|outcomes| - 1] {
      var init := outcomes[..|outcomes| - 1];
      TrailingIsBurst(init, k - 1);
      if EndsInFailures(outcomes, k) {
        forall i | |init| - (k - 1) <= i < |init| ensures !init[i] {
          assert init[i] == outcomes[i];
        }
      }
      if EndsInFailures(init, k - 1) {
        forall i | |outcomes| - k <= i < |outcomes| ensures !outcomes[i] {
          assert i < |init| ==> outcomes[i] == init[i];
        }
      }
    } else if k > 0 && outcomes != [] {
      var last := outcomes[|outcomes| - 1];
      assert EndsInFailures(outcomes, k) ==> !last;
    }
  }

  ghost predicate AllSucceeded(outcomes: seq<bool>) {
    forall i :: 0 <= i < |outcomes| ==> outcomes[i]
  }

  /** What the fields mean. */
  ghost predicate Represents(s: Settings, tr: seq<Event>, phase: Phase, failures: int, trialCalls: int,
                             lastFailure: int) {
    var m := PhaseAfter(s, tr);
    var outcomes := Outcomes(tr, m.since);
    && m.phase == phase && m.since <= |tr|
    && (phase == Closed ==> failures == TrailingFailures(outcomes))
    && (phase == HalfOpen ==> trialCalls == |outcomes| && AllSucceeded(outcomes))
    && (phase == Open ==> LatestFailure(tr).Some?)
    && (LatestFailure(tr).Some? ==> lastFailure == LatestFailure(tr).value)
  }

  lemma {:induction false} OutcomesFrom(tr: seq<Event>, since: nat)
    requires |tr| <= since
    ensures Outcomes(tr, since) == []
  {
  }

  lemma OneMoreOutcome(tr: seq<Event>, e: Event, since: nat)
    requires since <= |tr|
    ensures Outcomes(tr + [e], since) == Outcomes(tr, since) + if e.Finished? then [e.ok] else []
    ensures LatestFailure(tr + [e]) == if Failed(e) then Some(e.now) else LatestFailure(tr)
  {
    assert (tr + [e])[..|tr|] == tr;
  }

  lemma OneMoreTrailing(outcomes: seq<bool>, ok: bool)
    ensures TrailingFailures(outcomes + [ok]) == if ok then 0 else 1 + TrailingFailures(outcomes)
  {
    assert (outcomes + [ok])[..|outcomes|] == outcomes;
  }

  /** One event seen from the phase before it. */
  lemma OneMorePhase(s: Settings, tr: seq<Event>, e: Event)
    ensures var m, t := PhaseAfter(s, tr), PhaseAfter(s, tr + [e]);
      var outcomes := Outcomes(tr + [e], m.since);
      t == match m.phase
           case Closed =>
             if Failed(e) && EndsInFailures(outcomes, AtLeastOne(s.threshold)) then Mark(Open, |tr| + 1) else m
           case HalfOpen =>
             if Failed(e) then Mark(Open, |tr| + 1)
             else if Succeeded(e) && |outcomes| >= AtLeastOne(s.halfOpenMax) then Mark(Closed, |tr| + 1)
             else m
           case Open => if e.Began? && !CoolingDown(s, tr, e.now) then Mark(HalfOpen, |tr| + 1) else m
  {
    assert (tr + [e])[..|tr|] == tr;
  }

  lemma FailureRefines(s: Settings, tr: seq<Event>, phase: Phase, failures: int, trialCalls: int,
                       lastFailure: int, now: int)
    requires Represents(s, tr, phase, failures, trialCalls, lastFailure)
    ensures Represents(s, tr + [Finished(now, false)],
              if phase == HalfOpen || (phase == Closed && failures + 1 >= s.threshold) then Open else phase,
              failures + 1, trialCalls, now)
  {
    var e, m := Finished(now, false), PhaseAfter(s, tr);
    OneMorePhase(s, tr, e);
    OneMoreOutcome(tr, e, m.since);
    if phase == Closed {
      var outcomes := Outcomes(tr, m.since);
      OneMoreTrailing(outcomes, false);
      TrailingIsBurst(outcomes + [false], AtLeastOne(s.threshold));
    }
  }

  lemma SuccessRefines(s: Settings, tr: seq<Event>, phase: Phase, failures: int, trialCalls: int,
                       lastFailure: int, now: int)
    requires Represents(s, tr, phase, failures, trialCalls, lastFailure)
    ensures var closes := phase == HalfOpen && trialCalls + 1 >= s.halfOpenMax;
      Represents(s, tr + [Finished(now, true)], if closes then Closed else phase,
        if closes || phase == Closed then 0 else failures,
        if closes then 0 else if phase == HalfOpen then trialCalls + 1 else trialCalls, lastFailure)
  {
    var e, m := Finished(now, true), PhaseAfter(s, tr);
    OneMorePhase(s, tr, e);
    OneMoreOutcome(tr, e, m.since);
    OutcomesFrom(tr + [e], |tr| + 1);
    OneMoreTrailing(Outcomes(tr, m.since), true);
  }

  lemma BeginRefines(s: Settings, tr: seq<Event>, phase: Phase, failures: int, trialCalls: int, lastFailure: int,
                     now: int, admitted: bool)
    requires Represents(s, tr, phase, failures, trialCalls, lastFailure)
    ensures var probes := phase == Open && now - lastFailure >= s.timeout;
      Represents(s, tr + [Began(now, admitted)], if probes then HalfOpen else phase,
        if probes then 0 else failures, if probes then 0 else trialCalls, lastFailure)
  {
    var e, m := Began(now, admitted), PhaseAfter(s, tr);
    OneMorePhase(s, tr, e);
    OneMoreOutcome(tr, e, m.since);
    OutcomesFrom(tr + [e], |tr| + 1);
    assert Outcomes(tr, m.since) + [] == Outcomes(tr, m.since);
  }

  lemma OneMoreFollows(s: Settings, tr: seq<Event>, e: Event)
    requires FollowsSpec(s, tr)
    requires e.Began? ==> e.admitted == !Refuses(s, tr, e.now)
    ensures FollowsSpec(s, tr + [e])
  {
    assert (tr + [e])[..|tr|] == tr;
  }

  class CircuitBreaker {
    const settings: Settings
    var failures: int
    var trialCalls: int
    var lastFailure: int
    var state: Phase
    ghost var trace: seq<Event>

    ghost predicate Valid() reads this {
      && Represents(settings, trace, state, failures, trialCalls, lastFailure)
      && FollowsSpec(settings, trace)
    }

    constructor (settings: Settings)
      ensures Valid() && trace == [] && this.settings == settings
    {
      this.settings := settings;
      failures, trialCalls, lastFailure, state, trace := 0, 0, 0, Closed, [];
    }

    /** `Call` up to its first unlock. */
    method Begin(now: int) returns (admitted: bool)
      requires Valid()
      modifies this
      ensures Valid() && trace == old(trace) + [Began(now, admitted)]
      ensures admitted == !Refuses(settings, old(trace), now)
    {
      admitted := !(state == Open && now - lastFailure < settings.timeout);
      BeginRefines(settings, trace, state, failures, trialCalls, lastFailure, now, admitted);
      OneMoreFollows(settings, trace, Began(now, admitted));
      trace := trace + [Began(now, admitted)];
      if state == Open && admitted {
        state, trialCalls, failures := HalfOpen, 0, 0;
      }
    }

    /** `Call` from its second lock on, with the outcome of the function it ran. */
    method End(now: int, ok: bool)
      requires Valid()
      modifies this
      ensures Valid() && trace == old(trace) + [Finished(now, ok)]
    {
      OneMoreFollows(settings, trace, Finished(now, ok));
      if ok {
        OnSuccess(now);
      } else {
        OnFailure(now);
      }
    }

    method OnFailure(now: int)
      requires Represents(settings, trace, state, failures, trialCalls, lastFailure)
      modifies this
      ensures Represents(settings, trace, state, failures, trialCalls, lastFailure)
      ensures trace == old(trace) + [Finished(now, false)]
    {
      FailureRefines(settings, trace, state, failures, trialCalls, lastFailure, now);
      trace := trace + [Finished(now, false)];
      failures := failures + 1;
      lastFailure := now;
      match state {
        case HalfOpen => state := Open;
        case Closed => if failures >= settings.threshold { state := Open; }
        case Open =>
      }
    }

    method OnSuccess(now: int)
      requires Represents(settings, trace, state, failures, trialCalls, lastFailure)
      modifies this
      ensures Represents(settings, trace, state, failures, trialCalls, lastFailure)
      ensures trace == old(trace) + [Finished(now, true)]
    {
      SuccessRefines(settings, trace, state, failures, trialCalls, lastFailure, now);
      trace := trace + [Finished(now, true)];
      match state {
        case HalfOpen =>
          trialCalls := trialCalls + 1;
          if trialCalls >= settings.halfOpenMax {
            state, failures, trialCalls := Closed, 0, 0;
          }
        case Closed => failures := 0;
        case Open =>
      }
    }
  }

  // ---------------------------------------------------------------------------
  // What the specification guarantees over every run
  // ---------------------------------------------------------------------------

  lemma {:induction false} LatestFailureIsLast(tr: seq<Event>, i: int)
    requires Monotone(tr) && 0 <= i < |tr| && Failed(tr[i])
    ensures LatestFailure(tr).Some? && tr[i].now <= LatestFailure(tr).value
  {
    if !Failed(tr[|tr| - 1]) {
      LatestFailureIsLast(tr[..|tr| - 1], i);
    }
  }

  lemma {:induction false} LatestFailureHappened(tr: seq<Event>) returns (i: int)
    requires LatestFailure(tr).Some?
    ensures 0 <= i < |tr| && Failed(tr[i]) && tr[i].now == LatestFailure(tr).value
  {
    if Failed(tr[|tr| - 1]) {
      i := |tr| - 1;
    } else {
      i := LatestFailureHappened(tr[..|tr| - 1]);
    }
  }

  lemma {:induction false} SpecAt(s: Settings, tr: seq<Event>, j: int)
    requires FollowsSpec(s, tr) && 0 <= j < |tr| && tr[j].Began?
    ensures tr[j].admitted == !Refuses(s, tr[..j], tr[j].now)
  {
    if j < |tr| - 1 {
      SpecAt(s, tr[..|tr| - 1], j);
      assert tr[..|tr| - 1][..j] == tr[..j];
    }
  }

  lemma {:induction false} OpenHasFailed(s: Settings, tr: seq<Event>)
    requires PhaseAfter(s, tr).phase == Open
    ensures LatestFailure(tr).Some?
  {
    if !Failed(tr[|tr| - 1]) {
      OpenHasFailed(s, tr[..|tr| - 1]);
    }
  }

  /** While the breaker is open a call gets through exactly when every failed completion so far,
      those of calls still in flight when it opened included, is `timeout` or longer ago. */
  lemma OpenAdmitsIff(s: Settings, tr: seq<Event>, j: int)
    requires FollowsSpec(s, tr) && Monotone(tr) && 0 <= j < |tr| && tr[j].Began?
    requires PhaseAfter(s, tr[..j]).phase == Open
    ensures tr[j].admitted <==> forall i :: 0 <= i < j && Failed(tr[i]) ==> tr[j].now - tr[i].now >= s.timeout
  {
    SpecAt(s, tr, j);
    OpenHasFailed(s, tr[..j]);
    var f := LatestFailureHappened(tr[..j]);
    forall i | 0 <= i < j && Failed(tr[i]) ensures tr[i].now <= LatestFailure(tr[..j]).value {
      LatestFailureIsLast(tr[..j], i);
    }
    assert Failed(tr[f]);
  }

  /** In the other phases every call gets through. */
  lemma NotOpenAdmits(s: Settings, tr: seq<Event>, j: int)
    requires FollowsSpec(s, tr) && 0 <= j < |tr| && tr[j].Began? && PhaseAfter(s, tr[..j]).phase != Open
    ensures tr[j].admitted
  {
    SpecAt(s, tr, j);
  }

  /** Half-open: every outcome since is a success, and there are fewer than needed to close. */
  lemma {:induction false} HalfOpenMeans(s: Settings, tr: seq<Event>)
    requires PhaseAfter(s, tr).phase == HalfOpen
    ensures AllSucceeded(Outcomes(tr, PhaseAfter(s, tr).since))
    ensures |Outcomes(tr, PhaseAfter(s, tr).since)| < AtLeastOne(s.halfOpenMax)
  {
    var init := tr[..|tr| - 1];
    if PhaseAfter(s, init).phase == HalfOpen {
      HalfOpenMeans(s, init);
    } else {
      OutcomesFrom(tr, |tr|);
    }
  }

  /** Closed: since then no `threshold` failures have come back in a row. */
  lemma {:induction false} ClosedMeans(s: Settings, tr: seq<Event>, n: nat)
    requires PhaseAfter(s, tr).phase == Closed && PhaseAfter(s, tr).since <= n <= |tr|
    ensures !EndsInFailures(Outcomes(tr[..n], PhaseAfter(s, tr).since), AtLeastOne(s.threshold))
  {
    var m := PhaseAfter(s, tr);
    if n == m.since {
      OutcomesFrom(tr[..n], n);
    } else {
      var init, e := tr[..|tr| - 1], tr[|tr| - 1];
      if n < |tr| {
        assert init[..n] == tr[..n];
        ClosedMeans(s, init, n);
      } else {
        assert tr[..n] == tr;
        assert init[..n - 1] == init;
        ClosedMeans(s, init, n - 1);
        if !Failed(e) {
          ClosedStaysQuiet(Outcomes(init, m.since), e, AtLeastOne(s.threshold));
        }
      }
    }
  }

  lemma ClosedStaysQuiet(before: seq<bool>, e: Event, k: nat)
    requires k > 0 && !EndsInFailures(before, k) && !Failed(e)
    ensures !EndsInFailures(before + if e.Finished? then [e.ok] else [], k)
  {
    if e.Finished? {
      assert (before + [e.ok])[|before|];
    } else {
      assert before + [] == before;
    }
  }

  /** How the current phase was entered, at the event before `since`. */
  ghost predicate Entered(s: Settings, tr: seq<Event>, m: Mark) {
    0 < m.since <= |tr| &&
    var before, e := PhaseAfter(s, tr[..m.since - 1]), tr[m.since - 1];
    match m.phase
    case Open =>
      Failed(e) &&
      (before.phase == HalfOpen ||
       (before.phase == Closed && EndsInFailures(Outcomes(tr[..m.since], before.since), AtLeastOne(s.threshold))))
    case HalfOpen => before.phase == Open && e.Began? && !CoolingDown(s, tr[..m.since - 1], e.now)
    case Closed =>
      before.phase == HalfOpen && Succeeded(e) &&
      AllSucceeded(Outcomes(tr[..m.since], before.since)) &&
      |Outcomes(tr[..m.since], before.since)| == AtLeastOne(s.halfOpenMax)
  }

  /** Every phase but the first was entered by the event and the outcomes it takes:
      exactly `halfOpenMax` successes and no failure to close, `threshold` failures in a row or a
      failed trial to open, a call after the cool-down to probe. */
  lemma {:induction false} PhaseWasEntered(s: Settings, tr: seq<Event>)
    ensures PhaseAfter(s, tr) == Mark(Closed, 0) || Entered(s, tr, PhaseAfter(s, tr))
  {
    if tr != [] {
      var init, e := tr[..|tr| - 1], tr[|tr| - 1];
      var before, m := PhaseAfter(s, init), PhaseAfter(s, tr);
      if m == before {
        PhaseWasEntered(s, init);
        if m != Mark(Closed, 0) {
          assert init[..m.since - 1] == tr[..m.since - 1] && init[..m.since] == tr[..m.since];
        }
      } else {
        assert tr[..|tr|] == tr;
        if before.phase == HalfOpen {
          HalfOpenMeans(s, init);
        }
      }
    }
  }

  /** A probe of an open breaker after its cool-down at event b, then only successes, exactly as
      many as closing takes, up to event c. */
  ghost predicate RecoveredBetween(s: Settings, tr: seq<Event>, b: int, c: int) {
    && 0 <= b < c <= |tr|
    && PhaseAfter(s, tr[..b]).phase == Open && tr[b].Began? && !CoolingDown(s, tr[..b], tr[b].now)
    && AllSucceeded(Outcomes(tr[..c], b + 1))
    && |Outcomes(tr[..c], b + 1)| == AtLeastOne(s.halfOpenMax)
  }

  /** The last entry into Closed and the probe it goes back to. */
  lemma ClosedWasProbed(s: Settings, tr: seq<Event>) returns (b: int)
    requires PhaseAfter(s, tr).phase == Closed && PhaseAfter(s, tr).since > 0
    ensures b + 1 < PhaseAfter(s, tr).since && RecoveredBetween(s, tr, b, PhaseAfter(s, tr).since)
    ensures forall n :: b < n < PhaseAfter(s, tr).since ==> PhaseAfter(s, tr[..n]).phase == HalfOpen
  {
    var c := PhaseAfter(s, tr).since;
    PhaseWasEntered(s, tr);
    var half := tr[..c - 1];
    var h := PhaseAfter(s, half);
    PhaseWasEntered(s, half);
    b := h.since - 1;
    assert half[..b] == tr[..b];
    forall n | b < n < c ensures PhaseAfter(s, tr[..n]).phase == HalfOpen {
      assert half[..n] == tr[..n];
      PhaseHolds(s, half, n);
    }
  }

  lemma {:induction false} PhaseHolds(s: Settings, tr: seq<Event>, n: int)
    requires PhaseAfter(s, tr).since <= n <= |tr|
    ensures PhaseAfter(s, tr[..n]) == PhaseAfter(s, tr)
  {
    if n == |tr| {
      assert tr[..n] == tr;
    } else {
      var init := tr[..|tr| - 1];
      assert init[..n] == tr[..n];
      PhaseHolds(s, init, n);
    }
  }

  /** Safety over every run: an open breaker is closed again only through a probe after the
      cool-down followed by exactly `halfOpenMax` successes and no failure. */
  lemma ReclosesOnlyByRecovery(s: Settings, tr: seq<Event>, o: int) returns (b: int, c: int)
    requires 0 <= o < |tr| && PhaseAfter(s, tr[..o]).phase == Open && PhaseAfter(s, tr).phase == Closed
    ensures o <= b && RecoveredBetween(s, tr, b, c)
  {
    c := PhaseAfter(s, tr).since;
    if o >= c {
      PhaseHolds(s, tr, o);
    }
    b := ClosedWasProbed(s, tr);
  }
}
