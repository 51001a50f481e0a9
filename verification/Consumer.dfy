/** Delivery of one ingested e-mail: the retry loop of `processMessage` and the DLQ decision of `Subscribe`
    (classification/internal/nats/consumer.go) over `PublishResult` and `publishWithRetry`
    (classification/internal/nats/publisher.go). Times are milliseconds. */
module Consumers {
  import opened Collections
  import CircuitBreakers

  datatype Route = Extract | Auto | Decision | OtherRoute

  datatype Subject = ExtractedSubject | AutoSubject | IntelligenceSubject

  /** What a delivery does to the outside world, in order. */
  datatype Effect =
    | Classify(found: Option<Route>)
    | Publish(subject: Subject, ok: bool)
    | Sleep(ms: nat)
    | Ack
    | Nak(delay: nat)
    | DlqPublish(ok: bool)

  function SubjectOf(route: Route): Subject {
    match route
    case Extract => ExtractedSubject
    case Auto => AutoSubject
    case Decision => IntelligenceSubject
    case OtherRoute => IntelligenceSubject
  }

  function Pow2(n: nat): nat {
    if n == 0 then 1 else 2 * Pow2(n - 1)
  }

  /** The pause before publish call `i + 1`. */
  function RetryDelay(i: nat): nat
    requires 1 <= i
  {
    var delay := 100 * Pow2(i - 1);
    if delay > 5000 then 5000 else delay
  }

  /** The pauses of `calls` publish calls. */
  function RetryPauses(calls: nat): nat {
    if calls <= 1 then 0 else RetryPauses(calls - 1) + RetryDelay(calls - 1)
  }

  /** The pauses of `attempts` attempts, each twice the one before. */
  function Backoffs(backoff: nat, attempts: nat): nat {
    if attempts <= 1 then 0 else Backoffs(backoff, attempts - 1) + backoff * Pow2(attempts - 2)
  }

  lemma {:induction false} BackoffsClosedForm(backoff: nat, attempts: nat)
    requires 1 <= attempts
    ensures Backoffs(backoff, attempts) == backoff * (Pow2(attempts - 1) - 1)
  {
    if attempts > 1 {
      BackoffsClosedForm(backoff, attempts - 1);
    }
  }

  lemma Pow2Grows(n: nat)
    ensures n >= 7 ==> Pow2(n - 1) >= 64
  {
    if n > 7 {
      Pow2Grows(n - 1);
    } else if n == 7 {
      FirstPowers();
    }
  }

  lemma FirstPowers()
    ensures Pow2(0) == 1 && Pow2(1) == 2 && Pow2(2) == 4 && Pow2(3) == 8 && Pow2(4) == 16 && Pow2(5) == 32 &&
      Pow2(6) == 64
  {
    assert Pow2(3) == 8;
  }

  /** The pauses double from 100 ms for six calls and are 5 s from then on. */
  lemma {:induction false} RetryPausesClosedForm(calls: nat)
    requires 1 <= calls
    ensures RetryPauses(calls) ==
      if calls <= 7 then 100 * (Pow2(calls - 1) - 1) else 6300 + 5000 * (calls - 7)
  {
    FirstPowers();
    if calls > 1 {
      RetryPausesClosedForm(calls - 1);
      Pow2Grows(calls - 1);
    }
  }

  // ---------------------------------------------------------------------------
  // Specification: the effects of what the outside world answered
  // ---------------------------------------------------------------------------

  /** The calls and pauses of a publish whose calls got these answers. */
  function Tries(subject: Subject, answers: seq<bool>): seq<Effect> {
    if answers == [] then []
    else
      var n := |answers| - 1;
      Tries(subject, answers[..n]) + (if n > 0 then [Sleep(RetryDelay(n))] else []) + [Publish(subject, answers[n])]
  }

  /** Messages that were extracted from or handled automatically have subjects of their own; every other
      goes to the intelligence subject. */
  predicate GoesTo(route: Route, subject: Subject) {
    (subject == AutoSubject <==> route == Auto) && (subject == ExtractedSubject <==> route == Extract)
  }

  /** Calls with these answers and a pause before each but the first: 100 ms doubled each time, at most 5 s. */
  ghost predicate CallsAndPauses(subject: Subject, answers: seq<bool>, did: seq<Effect>) {
    && |did| == (if answers == [] then 0 else 2 * |answers| - 1)
    && (forall i :: 0 <= i < |answers| ==> did[2 * i] == Publish(subject, answers[i]))
    && (forall i :: 1 <= i < |answers| ==> did[2 * i - 1] == Sleep(if i <= 6 then 100 * Pow2(i - 1) else 5000))
  }

  lemma DelayIsCapped(i: nat)
    requires 1 <= i
    ensures RetryDelay(i) == if i <= 6 then 100 * Pow2(i - 1) else 5000
  {
    FirstPowers();
    Pow2Grows(i);
  }

  lemma {:induction false} TriesAt(subject: Subject, answers: seq<bool>)
    ensures CallsAndPauses(subject, answers, Tries(subject, answers))
  {
    if answers != [] {
      var n := |answers| - 1;
      var before := Tries(subject, answers[..n]);
      TriesAt(subject, answers[..n]);
      if n > 0 {
        DelayIsCapped(n);
        assert Tries(subject, answers) == before + [Sleep(RetryDelay(n)), Publish(subject, answers[n])];
      } else {
        assert Tries(subject, answers) == [Publish(subject, answers[n])];
      }
    }
  }

  lemma TriesGoTo(route: Route, answers: seq<bool>)
    ensures forall e :: e in Tries(SubjectOf(route), answers) && e.Publish? ==> GoesTo(route, e.subject)
  {
    forall e | e in Tries(SubjectOf(route), answers) && e.Publish? ensures GoesTo(route, e.subject) {
      TriesOnlyPublish(SubjectOf(route), answers, e);
    }
  }

  /** A publish stops at its first success and gives up after `maxRetries` calls. */
  ghost predicate TriesAnswered(answers: seq<bool>, maxRetries: nat) {
    && 1 <= |answers| <= maxRetries
    && (forall i :: 0 <= i < |answers| - 1 ==> !answers[i])
    && (!answers[|answers| - 1] ==> |answers| == maxRetries)
  }

  /** One turn of the loop: the classification found, and the answers to its publish calls,
      none when the circuit breaker refused. */
  datatype Attempt = Attempt(found: Option<Route>, answers: seq<bool>)

  datatype Settings = Settings(maxAttempts: nat, backoff: nat, hasPublisher: bool, maxRetries: nat, maxDeliver: nat)

  ghost predicate AttemptPossible(s: Settings, a: Attempt) {
    if a.found.None? || !s.hasPublisher then a.answers == []
    else a.answers == [] || TriesAnswered(a.answers, s.maxRetries)
  }

  predicate Succeeds(s: Settings, a: Attempt) {
    a.found.Some? && (s.hasPublisher ==> a.answers != [] && a.answers[|a.answers| - 1])
  }

  function AttemptEffects(a: Attempt): seq<Effect> {
    [Classify(a.found)] + if a.found.Some? then Tries(SubjectOf(a.found.value), a.answers) else []
  }

  /** The pause before an attempt. */
  function Pause(s: Settings, attempts: seq<Attempt>): seq<Effect> {
    if attempts == [] then [] else [Sleep(s.backoff * Pow2(|attempts| - 1))]
  }

  function LoopEffects(s: Settings, attempts: seq<Attempt>): seq<Effect> {
    if attempts == [] then []
    else
      var n := |attempts| - 1;
      LoopEffects(s, attempts[..n]) + Pause(s, attempts[..n]) + AttemptEffects(attempts[n])
  }

  /** How a delivery ended; a cancelled one had waited for part of its next pause. */
  datatype Report =
    | Malformed
    | Acked(attempts: seq<Attempt>)
    | Exhausted(attempts: seq<Attempt>)
    | Cancelled(attempts: seq<Attempt>, waited: nat)

  ghost predicate AllFail(s: Settings, attempts: seq<Attempt>) {
    forall i :: 0 <= i < |attempts| ==> AttemptPossible(s, attempts[i]) && !Succeeds(s, attempts[i])
  }

  /** The loop stops at the first attempt that succeeds, or after `maxAttempts`. */
  ghost predicate Possible(s: Settings, r: Report) {
    match r
    case Malformed => true
    case Acked(attempts) =>
      && 1 <= |attempts| <= s.maxAttempts
      && AllFail(s, attempts[..|attempts| - 1])
      && AttemptPossible(s, attempts[|attempts| - 1]) && Succeeds(s, attempts[|attempts| - 1])
    case Exhausted(attempts) => |attempts| == s.maxAttempts && AllFail(s, attempts)
    case Cancelled(attempts, waited) =>
      && 1 <= |attempts| < s.maxAttempts && AllFail(s, attempts)
      && waited <= s.backoff * Pow2(|attempts| - 1)
  }

  function Effects(s: Settings, r: Report): seq<Effect> {
    match r
    case Malformed => [Ack]
    case Acked(attempts) => LoopEffects(s, attempts) + [Ack]
    case Exhausted(attempts) => LoopEffects(s, attempts) + [Nak(5000)]
    case Cancelled(attempts, waited) => LoopEffects(s, attempts) + [Sleep(waited)]
  }

  lemma TriesStep(subject: Subject, answers: seq<bool>, ok: bool)
    ensures Tries(subject, answers + [ok]) ==
      Tries(subject, answers) + (if answers == [] then [] else [Sleep(RetryDelay(|answers|))]) + [Publish(subject, ok)]
  {
    assert (answers + [ok])[..|answers|] == answers;
  }

  lemma LoopStep(s: Settings, attempts: seq<Attempt>, a: Attempt)
    ensures LoopEffects(s, attempts + [a]) == LoopEffects(s, attempts) + Pause(s, attempts) + AttemptEffects(a)
  {
    assert (attempts + [a])[..|attempts|] == attempts;
  }

  lemma AckedPossible(s: Settings, attempts: seq<Attempt>, a: Attempt)
    requires |attempts| < s.maxAttempts && AllFail(s, attempts)
    requires AttemptPossible(s, a) && Succeeds(s, a)
    ensures Possible(s, Acked(attempts + [a]))
  {
    assert (attempts + [a])[..|attempts|] == attempts;
  }

  // ---------------------------------------------------------------------------
  // The loops
  // ---------------------------------------------------------------------------

  ghost predicate AnswersOf(answer: nat -> bool, answers: seq<bool>) {
    forall i :: 0 <= i < |answers| ==> answers[i] == answer(i)
  }

  /** `n` failed calls and the pauses between them. */
  ghost predicate FailedCalls(subject: Subject, answer: nat -> bool, n: nat, answers: seq<bool>, did: seq<Effect>) {
    && |answers| == n && AnswersOf(answer, answers)
    && (forall j :: 0 <= j < n ==> !answers[j])
    && did == Tries(subject, answers)
  }

  lemma CallFails(subject: Subject, answer: nat -> bool, n: nat, answers: seq<bool>, did: seq<Effect>)
    requires FailedCalls(subject, answer, n, answers, did) && !answer(n)
    ensures FailedCalls(subject, answer, n + 1, answers + [false],
      did + (if n == 0 then [] else [Sleep(RetryDelay(n))]) + [Publish(subject, false)])
  {
    TriesStep(subject, answers, false);
  }

  lemma CallSucceeds(subject: Subject, answer: nat -> bool, n: nat, max: nat, answers: seq<bool>, did: seq<Effect>)
    requires FailedCalls(subject, answer, n, answers, did) && answer(n) && n < max
    ensures TriesAnswered(answers + [true], max) && AnswersOf(answer, answers + [true])
    ensures Tries(subject, answers + [true]) ==
      did + (if n == 0 then [] else [Sleep(RetryDelay(n))]) + [Publish(subject, true)]
  {
    TriesStep(subject, answers, true);
  }

  /** `publishWithRetry`; `answer(i)` is what PublishMsg gives on call i. */
  method PublishWithRetry(maxRetries: nat, subject: Subject, answer: nat -> bool)
    returns (ok: bool, did: seq<Effect>, answers: seq<bool>)
    requires 1 <= maxRetries
    ensures TriesAnswered(answers, maxRetries) && did == Tries(subject, answers)
    ensures CallsAndPauses(subject, answers, did)
    ensures AnswersOf(answer, answers)
    ensures ok == answers[|answers| - 1]
  {
    did, answers := [], [];
    for i := 0 to maxRetries
      invariant FailedCalls(subject, answer, i, answers, did)
    {
      ghost var before := did;
      if i > 0 {
        did := did + [Sleep(RetryDelay(i))];
      }
      assert did == before + if i == 0 then [] else [Sleep(RetryDelay(i))];
      var sent := answer(i);
      did := did + [Publish(subject, sent)];
      if sent {
        CallSucceeds(subject, answer, i, maxRetries, answers, before);
        TriesAt(subject, answers + [true]);
        return true, did, answers + [true];
      }
      CallFails(subject, answer, i, answers, before);
      answers := answers + [false];
    }
    TriesAt(subject, answers);
    ok := false;
  }

  class Publisher {
    const breaker: CircuitBreakers.CircuitBreaker
    const maxRetries: nat

    ghost predicate Valid() reads breaker {
      breaker.Valid() && 1 <= maxRetries
    }

    constructor (breaker: CircuitBreakers.CircuitBreaker, maxRetries: int)
      requires breaker.Valid()
      ensures Valid() && this.breaker == breaker
      ensures this.maxRetries == if maxRetries < 1 then 5 else maxRetries
    {
      this.breaker := breaker;
      this.maxRetries := if maxRetries < 1 then 5 else maxRetries;
    }

    /** `PublishResult`: an error without a call for a missing result, for one that cannot be encoded and
        when the breaker refuses; else a publish whose outcome the breaker is told. `begin` and `end` are the
        times of the two critical sections. */
    method PublishResult(result: Option<Route>, encodes: bool, answer: nat -> bool, begin: int, end: int)
      returns (ok: bool, did: seq<Effect>, answers: seq<bool>)
      requires Valid()
      modifies breaker
      ensures Valid()
      ensures AnswersOf(answer, answers) && (answers == [] || TriesAnswered(answers, maxRetries))
      ensures did == if result.None? then [] else Tries(SubjectOf(result.value), answers)
      ensures forall e :: e in did && e.Publish? ==> result.Some? && GoesTo(result.value, e.subject)
      ensures result.Some? ==> exists subject :: GoesTo(result.value, subject) && CallsAndPauses(subject, answers, did)
      ensures answers == [] <==>
        result.None? || !encodes || CircuitBreakers.Refuses(breaker.settings, old(breaker.trace), begin)
      ensures ok == (answers != [] && answers[|answers| - 1])
      ensures result.None? || !encodes ==> breaker.trace == old(breaker.trace)
      ensures result.Some? && encodes ==>
        breaker.trace == old(breaker.trace) +
          if answers == [] then [CircuitBreakers.Began(begin, false)]
          else [CircuitBreakers.Began(begin, true), CircuitBreakers.Finished(end, ok)]
    {
      if result.None? {
        return false, [], [];
      }
      assert CallsAndPauses(SubjectOf(result.value), [], []);
      if !encodes {
        return false, [], [];
      }
      var admitted := breaker.Begin(begin);
      if !admitted {
        return false, [], [];
      }
      ok, did, answers := PublishWithRetry(maxRetries, SubjectOf(result.value), answer);
      TriesGoTo(result.value, answers);
      breaker.End(end, ok);
    }
  }

  /** What the outside world answers to attempt i of one delivery. */
  datatype World = World(classify: nat -> Option<Route>, encodes: nat -> bool, publish: nat -> nat -> bool,
                         begin: nat -> int, end: nat -> int, cancelled: nat -> Option<nat>)

  /** What was found and answered is what the outside world gave. */
  ghost predicate GivenBy(w: World, i: nat, a: Attempt) {
    a.found == w.classify(i) && AnswersOf(w.publish(i), a.answers)
  }

  ghost predicate AllGivenBy(w: World, attempts: seq<Attempt>) {
    forall i :: 0 <= i < |attempts| ==> GivenBy(w, i, attempts[i])
  }

  ghost predicate ReportGivenBy(w: World, r: Report) {
    && (!r.Malformed? ==> AllGivenBy(w, r.attempts))
    && (r.Cancelled? ==> w.cancelled(|r.attempts|) == Some(r.waited))
  }

  /** What the loop has done after some failed attempts. */
  ghost predicate LoopDid(s: Settings, w: World, attempts: seq<Attempt>, did: seq<Effect>) {
    |attempts| <= s.maxAttempts && AllFail(s, attempts) && AllGivenBy(w, attempts) && did == LoopEffects(s, attempts)
  }

  lemma GivenOneMore(w: World, attempts: seq<Attempt>, a: Attempt)
    requires AllGivenBy(w, attempts) && GivenBy(w, |attempts|, a)
    ensures AllGivenBy(w, attempts + [a])
  {
  }

  lemma FailOneMore(s: Settings, attempts: seq<Attempt>, a: Attempt)
    requires AllFail(s, attempts) && AttemptPossible(s, a) && !Succeeds(s, a)
    ensures AllFail(s, attempts + [a])
  {
  }

  lemma TurnFails(s: Settings, w: World, attempts: seq<Attempt>, did: seq<Effect>, a: Attempt)
    requires LoopDid(s, w, attempts, did) && |attempts| < s.maxAttempts
    requires AttemptPossible(s, a) && GivenBy(w, |attempts|, a) && !Succeeds(s, a)
    ensures LoopDid(s, w, attempts + [a], did + Pause(s, attempts) + AttemptEffects(a))
  {
    LoopStep(s, attempts, a);
    GivenOneMore(w, attempts, a);
    FailOneMore(s, attempts, a);
  }

  lemma AckedEffects(s: Settings, attempts: seq<Attempt>, a: Attempt)
    ensures LoopEffects(s, attempts) + Pause(s, attempts) + AttemptEffects(a) + [Ack] ==
      Effects(s, Acked(attempts + [a]))
  {
    LoopStep(s, attempts, a);
  }

  lemma TurnSucceeds(s: Settings, w: World, attempts: seq<Attempt>, did: seq<Effect>, a: Attempt)
    requires LoopDid(s, w, attempts, did) && |attempts| < s.maxAttempts
    requires AttemptPossible(s, a) && GivenBy(w, |attempts|, a) && Succeeds(s, a)
    ensures Possible(s, Acked(attempts + [a])) && ReportGivenBy(w, Acked(attempts + [a]))
    ensures did + Pause(s, attempts) + AttemptEffects(a) + [Ack] == Effects(s, Acked(attempts + [a]))
  {
    AckedEffects(s, attempts, a);
    GivenOneMore(w, attempts, a);
    AckedPossible(s, attempts, a);
  }

  lemma CancelledPossible(s: Settings, attempts: seq<Attempt>, waited: nat)
    requires 1 <= |attempts| < s.maxAttempts && AllFail(s, attempts)
    requires waited <= s.backoff * Pow2(|attempts| - 1)
    ensures Possible(s, Cancelled(attempts, waited))
  {
  }

  lemma LoopCancelled(s: Settings, w: World, attempts: seq<Attempt>, did: seq<Effect>, waited: nat)
    requires LoopDid(s, w, attempts, did) && 1 <= |attempts| < s.maxAttempts
    requires w.cancelled(|attempts|) == Some(waited) && waited <= s.backoff * Pow2(|attempts| - 1)
    ensures Possible(s, Cancelled(attempts, waited)) && ReportGivenBy(w, Cancelled(attempts, waited))
    ensures did + [Sleep(waited)] == Effects(s, Cancelled(attempts, waited))
  {
    CancelledPossible(s, attempts, waited);
    assert did == LoopEffects(s, attempts);
  }

  lemma LoopExhausted(s: Settings, w: World, attempts: seq<Attempt>, did: seq<Effect>)
    requires LoopDid(s, w, attempts, did) && |attempts| == s.maxAttempts
    ensures Possible(s, Exhausted(attempts)) && ReportGivenBy(w, Exhausted(attempts))
    ensures did + [Nak(5000)] == Effects(s, Exhausted(attempts))
  {
  }

  class Consumer {
    const publisher: Publisher?
    const maxAttempts: nat
    const backoff: nat
    const maxDeliver: nat

    ghost predicate Valid()
      reads publisher, if publisher == null then {} else {publisher.breaker}
    {
      1 <= maxAttempts && 1 <= maxDeliver && (publisher != null ==> publisher.Valid())
    }

    function Config(): Settings {
      Settings(maxAttempts, backoff, publisher != null, if publisher == null then 1 else publisher.maxRetries,
               maxDeliver)
    }

    constructor (publisher: Publisher?, maxAttempts: nat, backoff: nat, maxDeliver: nat)
      requires publisher != null ==> publisher.Valid()
      requires 1 <= maxAttempts && 1 <= maxDeliver
      ensures Valid()
      ensures Config() ==
        Settings(maxAttempts, backoff, publisher != null, if publisher == null then 1 else publisher.maxRetries,
                 maxDeliver)
    {
      this.publisher, this.maxAttempts, this.backoff, this.maxDeliver := publisher, maxAttempts, backoff, maxDeliver;
    }

    /** One turn: classify, and publish what was found. */
    method Try(w: World, i: nat) returns (ok: bool, did: seq<Effect>, attempt: Attempt)
      requires Valid()
      modifies if publisher == null then {} else {publisher.breaker}
      ensures Valid()
      ensures AttemptPossible(Config(), attempt) && GivenBy(w, i, attempt)
      ensures ok == Succeeds(Config(), attempt) && did == AttemptEffects(attempt)
    {
      var found := w.classify(i);
      attempt := Attempt(found, []);
      did := [Classify(found)];
      if found.None? {
        return false, did, attempt;
      }
      if publisher == null {
        return true, did, attempt;
      }
      var published, calls, answers := publisher.PublishResult(found, w.encodes(i), w.publish(i), w.begin(i), w.end(i));
      return published, did + calls, Attempt(found, answers);
    }

    method ProcessMessage(wellFormed: bool, w: World) returns (failed: bool, did: seq<Effect>, report: Report)
      requires Valid()
      modifies if publisher == null then {} else {publisher.breaker}
      ensures Valid()
      ensures Possible(Config(), report) && did == Effects(Config(), report)
      ensures ReportGivenBy(w, report) && (report.Malformed? <==> !wellFormed)
      ensures failed <==> !report.Acked?
    {
      if !wellFormed {
        return true, [Ack], Malformed;
      }
      var attempts := [];
      did := [];
      ghost var s := Config();
      while |attempts| < maxAttempts
        invariant Valid() && LoopDid(s, w, attempts, did)
        decreases maxAttempts - |attempts|
      {
        var cancelled, paused := WaitBefore(w, attempts);
        if cancelled.Some? {
          LoopCancelled(s, w, attempts, did, cancelled.value);
          return true, did + [Sleep(cancelled.value)], Cancelled(attempts, cancelled.value);
        }
        var ok, effects, attempt := Try(w, |attempts|);
        if ok {
          TurnSucceeds(s, w, attempts, did, attempt);
          return false, did + paused + effects + [Ack], Acked(attempts + [attempt]);
        }
        TurnFails(s, w, attempts, did, attempt);
        did, attempts := did + paused + effects, attempts + [attempt];
      }
      LoopExhausted(s, w, attempts, did);
      return true, did + [Nak(5000)], Exhausted(attempts);
    }

    /** The select between the timer and the cancellation, before every attempt but the first. */
    method WaitBefore(w: World, attempts: seq<Attempt>) returns (cancelled: Option<nat>, did: seq<Effect>)
      ensures cancelled.Some? ==>
        attempts != [] && w.cancelled(|attempts|) == cancelled && cancelled.value <= backoff * Pow2(|attempts| - 1)
      ensures cancelled.None? ==> did == Pause(Config(), attempts)
    {
      if attempts == [] {
        return None, [];
      }
      var pause := backoff * Pow2(|attempts| - 1);
      var cancel := w.cancelled(|attempts|);
      if cancel.Some? && cancel.value <= pause {
        return cancel, [];
      }
      return None, [Sleep(pause)];
    }

    /** The body of `Subscribe`'s message loop: after `maxDeliver` failed deliveries the message goes to the DLQ.
        `delivered` is None when the metadata cannot be read. */
    method HandleDelivery(wellFormed: bool, w: World, delivered: Option<nat>, dlq: bool)
      returns (did: seq<Effect>, report: Report)
      requires Valid()
      modifies if publisher == null then {} else {publisher.breaker}
      ensures Valid()
      ensures Possible(Config(), report) && ReportGivenBy(w, report) && (report.Malformed? <==> !wellFormed)
      ensures did == DeliveryEffects(Config(), Delivery(report, delivered, dlq))
    {
      var failed;
      failed, did, report := ProcessMessage(wellFormed, w);
      if failed && delivered.Some? && delivered.value >= maxDeliver {
        did := did + [DlqPublish(dlq)];
        if dlq {
          did := did + [Ack];
        }
      }
    }
  }

  datatype Delivery = Delivery(report: Report, delivered: Option<nat>, dlq: bool)

  predicate GoesToDlq(s: Settings, d: Delivery) {
    !d.report.Acked? && d.delivered.Some? && d.delivered.value >= s.maxDeliver
  }

  /** What `Subscribe` adds after a failed delivery. */
  function DlqEffects(s: Settings, d: Delivery): seq<Effect> {
    if !GoesToDlq(s, d) then [] else if d.dlq then [DlqPublish(true), Ack] else [DlqPublish(false)]
  }

  function DeliveryEffects(s: Settings, d: Delivery): seq<Effect> {
    Effects(s, d.report) + DlqEffects(s, d)
  }

  // ---------------------------------------------------------------------------
  // Counting calls and time
  // ---------------------------------------------------------------------------

  function Published(did: seq<Effect>): nat {
    if did == [] then 0 else Published(did[..|did| - 1]) + if did[|did| - 1].Publish? then 1 else 0
  }

  function Slept(did: seq<Effect>): nat {
    if did == [] then 0 else Slept(did[..|did| - 1]) + if did[|did| - 1].Sleep? then did[|did| - 1].ms else 0
  }

  lemma {:induction false} CountAppend(a: seq<Effect>, b: seq<Effect>)
    ensures Published(a + b) == Published(a) + Published(b)
    ensures Slept(a + b) == Slept(a) + Slept(b)
  {
    if b == [] {
      assert a + b == a;
    } else {
      CountAppend(a, b[..|b| - 1]);
      assert (a + b)[..|a + b| - 1] == a + b[..|b| - 1];
    }
  }

  lemma CountOne(e: Effect)
    ensures Published([e]) == if e.Publish? then 1 else 0
    ensures Slept([e]) == if e.Sleep? then e.ms else 0
  {
    assert [e][..0] == [];
  }

  lemma {:induction false} TriesCount(subject: Subject, answers: seq<bool>)
    ensures Published(Tries(subject, answers)) == |answers|
    ensures Slept(Tries(subject, answers)) == RetryPauses(|answers|)
  {
    if answers != [] {
      var n := |answers| - 1;
      TriesCount(subject, answers[..n]);
      var pause := if n > 0 then [Sleep(RetryDelay(n))] else [];
      CountAppend(Tries(subject, answers[..n]) + pause, [Publish(subject, answers[n])]);
      CountAppend(Tries(subject, answers[..n]), pause);
      CountOne(Publish(subject, answers[n]));
      if n > 0 {
        CountOne(Sleep(RetryDelay(n)));
      }
    }
  }

  lemma {:induction false} PausesGrow(m: nat, n: nat)
    requires m <= n
    ensures RetryPauses(m) <= RetryPauses(n)
  {
    if m < n {
      PausesGrow(m, n - 1);
    }
  }

  lemma AttemptCount(s: Settings, a: Attempt)
    requires AttemptPossible(s, a)
    ensures Published(AttemptEffects(a)) <= s.maxRetries
    ensures Slept(AttemptEffects(a)) <= RetryPauses(s.maxRetries)
  {
    CountOne(Classify(a.found));
    if a.found.Some? {
      TriesCount(SubjectOf(a.found.value), a.answers);
      CountAppend([Classify(a.found)], Tries(SubjectOf(a.found.value), a.answers));
      PausesGrow(|a.answers|, s.maxRetries);
    } else {
      assert [Classify(a.found)] + [] == [Classify(a.found)];
    }
  }

  lemma OneMoreTimes(n: nat, x: nat)
    ensures (n + 1) * x == n * x + x
  {
  }

  /** Bounds on what `n` attempts do. */
  ghost predicate WithinLoop(s: Settings, did: seq<Effect>, n: nat) {
    && Published(did) <= n * s.maxRetries
    && Slept(did) <= Backoffs(s.backoff, n) + n * RetryPauses(s.maxRetries)
  }

  lemma PauseCount(s: Settings, attempts: seq<Attempt>)
    ensures Published(Pause(s, attempts)) == 0
    ensures Backoffs(s.backoff, |attempts| + 1) == Backoffs(s.backoff, |attempts|) + Slept(Pause(s, attempts))
  {
    if attempts != [] {
      CountOne(Sleep(s.backoff * Pow2(|attempts| - 1)));
    }
  }

  lemma TurnCount(s: Settings, attempts: seq<Attempt>, did: seq<Effect>, a: Attempt)
    requires WithinLoop(s, did, |attempts|) && AttemptPossible(s, a)
    ensures WithinLoop(s, did + Pause(s, attempts) + AttemptEffects(a), |attempts| + 1)
  {
    CountAppend(did + Pause(s, attempts), AttemptEffects(a));
    CountAppend(did, Pause(s, attempts));
    AttemptCount(s, a);
    PauseCount(s, attempts);
    OneMoreTimes(|attempts|, s.maxRetries);
    OneMoreTimes(|attempts|, RetryPauses(s.maxRetries));
  }

  lemma {:induction false} LoopCount(s: Settings, attempts: seq<Attempt>)
    requires forall i :: 0 <= i < |attempts| ==> AttemptPossible(s, attempts[i])
    ensures WithinLoop(s, LoopEffects(s, attempts), |attempts|)
  {
    if attempts != [] {
      var n := |attempts| - 1;
      LoopCount(s, attempts[..n]);
      TurnCount(s, attempts[..n], LoopEffects(s, attempts[..n]), attempts[n]);
    }
  }

  lemma {:induction false} BackoffsGrow(backoff: nat, m: nat, n: nat)
    requires m <= n
    ensures Backoffs(backoff, m) <= Backoffs(backoff, n)
  {
    if m < n {
      BackoffsGrow(backoff, m, n - 1);
    }
  }

  lemma TimesGrow(m: nat, n: nat, x: nat)
    requires m <= n
    ensures m * x <= n * x
  {
  }

  /** The attempts of a report: at most `maxAttempts`, each possible. */
  lemma ReportAttempts(s: Settings, r: Report)
    requires Possible(s, r) && !r.Malformed?
    ensures |r.attempts| <= s.maxAttempts
    ensures forall i :: 0 <= i < |r.attempts| ==> AttemptPossible(s, r.attempts[i])
  {
    if r.Acked? {
      var n := |r.attempts| - 1;
      forall i | 0 <= i < |r.attempts| ensures AttemptPossible(s, r.attempts[i]) {
        assert i < n ==> r.attempts[..n][i] == r.attempts[i];
      }
    }
  }

  /** What a report adds to its loop. */
  function LastEffect(r: Report): Effect {
    match r
    case Malformed => Ack
    case Acked(_) => Ack
    case Exhausted(_) => Nak(5000)
    case Cancelled(_, waited) => Sleep(waited)
  }

  lemma EffectsCount(s: Settings, r: Report)
    requires !r.Malformed?
    ensures Published(Effects(s, r)) == Published(LoopEffects(s, r.attempts))
    ensures Slept(Effects(s, r)) == Slept(LoopEffects(s, r.attempts)) + if r.Cancelled? then r.waited else 0
  {
    CountAppend(LoopEffects(s, r.attempts), [LastEffect(r)]);
    CountOne(LastEffect(r));
  }

  lemma ReportBackoffs(s: Settings, r: Report)
    requires Possible(s, r) && !r.Malformed?
    ensures Backoffs(s.backoff, |r.attempts|) + (if r.Cancelled? then r.waited else 0) <=
      Backoffs(s.backoff, s.maxAttempts)
  {
    BackoffsGrow(s.backoff, if r.Cancelled? then |r.attempts| + 1 else |r.attempts|, s.maxAttempts);
  }

  lemma WithinSums(s: Settings, r: Report)
    requires Possible(s, r) && 1 <= s.maxAttempts
    ensures Published(Effects(s, r)) <= s.maxAttempts * s.maxRetries
    ensures Slept(Effects(s, r)) <= Backoffs(s.backoff, s.maxAttempts) + s.maxAttempts * RetryPauses(s.maxRetries)
  {
    if r.Malformed? {
      CountOne(Ack);
      TimesGrow(0, s.maxAttempts, s.maxRetries);
      TimesGrow(0, s.maxAttempts, RetryPauses(s.maxRetries));
    } else {
      ReportAttempts(s, r);
      EffectsCount(s, r);
      ReportBackoffs(s, r);
      LoopCount(s, r.attempts);
      TimesGrow(|r.attempts|, s.maxAttempts, s.maxRetries);
      TimesGrow(|r.attempts|, s.maxAttempts, RetryPauses(s.maxRetries));
    }
  }

  /** One delivery makes at most `maxAttempts * maxRetries` publish calls and sleeps at most
      `backoff * (2^(maxAttempts-1) - 1)` plus `maxAttempts` times the pauses of a full publish. */
  lemma DeliveryIsBounded(s: Settings, r: Report)
    requires Possible(s, r) && 1 <= s.maxAttempts
    ensures Published(Effects(s, r)) <= s.maxAttempts * s.maxRetries
    ensures Slept(Effects(s, r)) <=
      s.backoff * (Pow2(s.maxAttempts - 1) - 1) + s.maxAttempts * RetryPauses(s.maxRetries)
  {
    BackoffsClosedForm(s.backoff, s.maxAttempts);
    WithinSums(s, r);
  }

  // ---------------------------------------------------------------------------
  // Acknowledgements
  // ---------------------------------------------------------------------------

  lemma {:induction false} TriesOnlyPublish(subject: Subject, answers: seq<bool>, e: Effect)
    requires e in Tries(subject, answers)
    ensures (e.Publish? && e.subject == subject) || e.Sleep?
  {
    var n := |answers| - 1;
    if e in Tries(subject, answers[..n]) {
      TriesOnlyPublish(subject, answers[..n], e);
    }
  }

  /** The loop itself neither acknowledges nor refuses. */
  lemma {:induction false} LoopAnswersNothing(s: Settings, attempts: seq<Attempt>, e: Effect)
    requires e in LoopEffects(s, attempts)
    ensures e.Classify? || e.Publish? || e.Sleep?
  {
    var n := |attempts| - 1;
    if e in LoopEffects(s, attempts[..n]) {
      LoopAnswersNothing(s, attempts[..n], e);
    } else if e in AttemptEffects(attempts[n]) && !e.Classify? {
      TriesOnlyPublish(SubjectOf(attempts[n].found.value), attempts[n].answers, e);
    }
  }

  lemma {:induction false} LoopPublishes(s: Settings, attempts: seq<Attempt>, e: Effect) returns (n: int)
    requires e in LoopEffects(s, attempts) && e.Publish?
    ensures 0 <= n < |attempts| && attempts[n].found.Some? && GoesTo(attempts[n].found.value, e.subject)
  {
    var last := |attempts| - 1;
    if e in LoopEffects(s, attempts[..last]) {
      n := LoopPublishes(s, attempts[..last], e);
    } else {
      n := last;
      assert e in AttemptEffects(attempts[last]);
      TriesGoTo(attempts[last].found.value, attempts[last].answers);
    }
  }

  /** What the classifications of a delivery found, in order. */
  function FoundIn(did: seq<Effect>): seq<Option<Route>> {
    if did == [] then []
    else FoundIn(did[..|did| - 1]) + if did[|did| - 1].Classify? then [did[|did| - 1].found] else []
  }

  function Founds(attempts: seq<Attempt>): seq<Option<Route>> {
    if attempts == [] then [] else Founds(attempts[..|attempts| - 1]) + [attempts[|attempts| - 1].found]
  }

  lemma {:induction false} FoundAppend(a: seq<Effect>, b: seq<Effect>)
    ensures FoundIn(a + b) == FoundIn(a) + FoundIn(b)
  {
    if b == [] {
      assert a + b == a;
    } else {
      FoundAppend(a, b[..|b| - 1]);
      assert (a + b)[..|a + b| - 1] == a + b[..|b| - 1];
    }
  }

  lemma {:induction false} NothingFound(did: seq<Effect>)
    requires forall e :: e in did ==> !e.Classify?
    ensures FoundIn(did) == []
  {
    if did != [] {
      NothingFound(did[..|did| - 1]);
    }
  }

  lemma AttemptFinds(a: Attempt)
    ensures FoundIn(AttemptEffects(a)) == [a.found]
  {
    var c := [Classify(a.found)];
    var rest := if a.found.Some? then Tries(SubjectOf(a.found.value), a.answers) else [];
    assert c[..0] == [];
    assert FoundIn(c) == [a.found];
    FoundAppend(c, rest);
    forall e | e in rest ensures !e.Classify? {
      TriesOnlyPublish(SubjectOf(a.found.value), a.answers, e);
    }
    NothingFound(rest);
  }

  lemma {:induction false} LoopFinds(s: Settings, attempts: seq<Attempt>)
    ensures FoundIn(LoopEffects(s, attempts)) == Founds(attempts)
  {
    if attempts != [] {
      var n := |attempts| - 1;
      var before, pause := LoopEffects(s, attempts[..n]), Pause(s, attempts[..n]);
      LoopFinds(s, attempts[..n]);
      FoundAppend(before + pause, AttemptEffects(attempts[n]));
      FoundAppend(before, pause);
      NothingFound(pause);
      AttemptFinds(attempts[n]);
    }
  }

  /** A delivery classifies once for each attempt, and nothing when the message is malformed. */
  lemma DeliveryClassifies(s: Settings, d: Delivery)
    ensures FoundIn(DeliveryEffects(s, d)) == if d.report.Malformed? then [] else Founds(d.report.attempts)
  {
    var rest := [LastEffect(d.report)] + DlqEffects(s, d);
    NothingFound(rest);
    if d.report.Malformed? {
      assert DeliveryEffects(s, d) == rest;
    } else {
      var loop := LoopEffects(s, d.report.attempts);
      assert DeliveryEffects(s, d) == loop + rest;
      FoundAppend(loop, rest);
      LoopFinds(s, d.report.attempts);
    }
  }

  /** Whatever a delivery publishes goes to the subject of a route one of its attempts found. */
  lemma DeliveryPublishes(s: Settings, d: Delivery, e: Effect) returns (n: int)
    requires e in DeliveryEffects(s, d) && e.Publish?
    ensures !d.report.Malformed? && 0 <= n < |d.report.attempts|
    ensures d.report.attempts[n].found.Some? && GoesTo(d.report.attempts[n].found.value, e.subject)
  {
    assert DeliveryEffects(s, d) == Effects(s, d.report) + DlqEffects(s, d);
    n := LoopPublishes(s, d.report.attempts, e);
  }

  /** A delivery puts the message into the DLQ exactly when it failed and JetStream had delivered it
      `maxDeliver` times, and with the outcome the DLQ gave. */
  lemma DlqIff(s: Settings, d: Delivery, ok: bool)
    ensures DlqPublish(ok) in DeliveryEffects(s, d) <==>
      !d.report.Acked? && d.delivered.Some? && d.delivered.value >= s.maxDeliver && ok == d.dlq
  {
    var e, dlq := Effects(s, d.report), DlqEffects(s, d);
    assert DeliveryEffects(s, d) == e + dlq;
    if !d.report.Malformed? && DlqPublish(ok) in LoopEffects(s, d.report.attempts) {
      LoopAnswersNothing(s, d.report.attempts, DlqPublish(ok));
    }
    assert DlqPublish(ok) !in e;
    assert dlq != [] ==> dlq[0] == DlqPublish(d.dlq);
  }

  /** What the acknowledged delivery did last: it published the classification it found. */
  ghost predicate PublishedThenAcked(did: seq<Effect>, route: Route) {
    |did| >= 2 && did[|did| - 1] == Ack && did[|did| - 2].Publish? && did[|did| - 2].ok &&
    GoesTo(route, did[|did| - 2].subject)
  }

  /** A well-formed message is acknowledged exactly when its last attempt succeeded, and then right
      after the successful publish to the subject of the route that attempt found. */
  lemma AckFollowsPublish(s: Settings, r: Report)
    requires Possible(s, r) && !r.Malformed?
    ensures Ack in Effects(s, r) <==> r.Acked?
    ensures r.Acked? && s.hasPublisher ==>
      r.attempts[|r.attempts| - 1].found.Some? &&
      PublishedThenAcked(Effects(s, r), r.attempts[|r.attempts| - 1].found.value)
  {
    if Ack in LoopEffects(s, r.attempts) {
      LoopAnswersNothing(s, r.attempts, Ack);
    }
    if r.Acked? && s.hasPublisher {
      var a := r.attempts[|r.attempts| - 1];
      var t := Tries(SubjectOf(a.found.value), a.answers);
      assert t[|t| - 1] == Publish(SubjectOf(a.found.value), true);
      assert LoopEffects(s, r.attempts)[|LoopEffects(s, r.attempts)| - 1] == t[|t| - 1];
    }
  }

  /** The effects of a run of deliveries of one message. */
  function RunEffects(s: Settings, ds: seq<Delivery>): seq<Effect> {
    if ds == [] then [] else RunEffects(s, ds[..|ds| - 1]) + DeliveryEffects(s, ds[|ds| - 1])
  }

  ghost predicate Handed(did: seq<Effect>) {
    DlqPublish(true) in did || exists subject :: Publish(subject, true) in did
  }

  lemma DeliveryAckIsSafe(s: Settings, d: Delivery)
    requires s.hasPublisher && Possible(s, d.report) && !d.report.Malformed?
    requires Ack in DeliveryEffects(s, d)
    ensures Handed(DeliveryEffects(s, d))
  {
    AckFollowsPublish(s, d.report);
    if d.report.Acked? {
      var e := Effects(s, d.report);
      assert e[|e| - 2] == Publish(e[|e| - 2].subject, true);
      assert DeliveryEffects(s, d)[|e| - 2] == e[|e| - 2];
    }
  }

  /** Safety over any run of deliveries: a well-formed message that was acknowledged was published
      downstream or put into the DLQ. */
  lemma {:induction false} AckedIsSafe(s: Settings, ds: seq<Delivery>)
    requires s.hasPublisher
    requires forall i :: 0 <= i < |ds| ==> Possible(s, ds[i].report) && !ds[i].report.Malformed?
    requires Ack in RunEffects(s, ds)
    ensures Handed(RunEffects(s, ds))
  {
    var n := |ds| - 1;
    if Ack in RunEffects(s, ds[..n]) {
      AckedIsSafe(s, ds[..n]);
      HandedLater(RunEffects(s, ds[..n]), DeliveryEffects(s, ds[n]));
    } else {
      DeliveryAckIsSafe(s, ds[n]);
      HandedLater(RunEffects(s, ds[..n]), DeliveryEffects(s, ds[n]));
    }
  }

  lemma HandedLater(a: seq<Effect>, b: seq<Effect>)
    ensures Handed(a) || Handed(b) ==> Handed(a + b)
  {
    if Handed(a) && DlqPublish(true) !in a {
      var subject :| Publish(subject, true) in a;
      assert Publish(subject, true) in a + b;
    } else if Handed(b) && DlqPublish(true) !in b {
      var subject :| Publish(subject, true) in b;
      assert Publish(subject, true) in a + b;
    }
  }

  predicate IsAnswer(e: Effect) { e.Ack? || e.Nak? }

  /** The answer the server takes: the first Ack or Nak, since the client library refuses a second one. */
  function AnswerOf(did: seq<Effect>): Option<Effect> {
    if did == [] then None
    else if IsAnswer(did[0]) then Some(did[0])
    else AnswerOf(did[1..])
  }

  lemma {:induction false} AnswerSkips(a: seq<Effect>, b: seq<Effect>)
    requires forall e :: e in a ==> !IsAnswer(e)
    ensures AnswerOf(a + b) == AnswerOf(b)
  {
    if a == [] {
      assert a + b == b;
    } else {
      AnswerSkips(a[1..], b);
      assert (a + b)[1..] == a[1..] + b && (a + b)[0] == a[0];
      assert a[0] in a;
    }
  }

  /** What the loop does, then its end, then what `Subscribe` adds. */
  lemma LoopThenRest(s: Settings, d: Delivery, rest: seq<Effect>)
    requires !d.report.Malformed?
    requires rest == [LastEffect(d.report)] + DlqEffects(s, d)
    ensures AnswerOf(DeliveryEffects(s, d)) == AnswerOf(rest)
  {
    var loop := LoopEffects(s, d.report.attempts);
    forall e | e in loop ensures !IsAnswer(e) {
      LoopAnswersNothing(s, d.report.attempts, e);
    }
    AnswerSkips(loop, rest);
    assert DeliveryEffects(s, d) == loop + rest;
  }

  /** How a delivery is answered: acknowledged when the message was published or is malformed, refused with a
      delay after exhaustion even if it went to the DLQ, and after a cancellation only by way of the DLQ. */
  lemma DeliveryAnswered(s: Settings, d: Delivery)
    ensures AnswerOf(DeliveryEffects(s, d)) ==
      match d.report
      case Malformed => Some(Ack)
      case Acked(_) => Some(Ack)
      case Exhausted(_) => Some(Nak(5000))
      case Cancelled(_, _) => if GoesToDlq(s, d) && d.dlq then Some(Ack) else None
  {
    if d.report.Malformed? {
      assert DeliveryEffects(s, d)[0] == Ack;
    } else {
      var rest := [LastEffect(d.report)] + DlqEffects(s, d);
      LoopThenRest(s, d, rest);
      if d.report.Cancelled? {
        AnswerSkips([LastEffect(d.report)], DlqEffects(s, d));
        AnswerOfDlq(s, d);
      } else {
        assert rest[0] == LastEffect(d.report);
      }
    }
  }

  lemma AnswerOfDlq(s: Settings, d: Delivery)
    ensures AnswerOf(DlqEffects(s, d)) == if GoesToDlq(s, d) && d.dlq then Some(Ack) else None
  {
    if GoesToDlq(s, d) {
      AnswerSkips([DlqPublish(d.dlq)], if d.dlq then [Ack] else []);
      assert DlqEffects(s, d) == [DlqPublish(d.dlq)] + if d.dlq then [Ack] else [];
    }
  }

  /** An acknowledgement the server takes means the message was handed over, and after the last delivery
      JetStream makes it has been, unless the DLQ publish itself failed. */
  lemma LastDeliverySettles(s: Settings, d: Delivery)
    requires s.hasPublisher && Possible(s, d.report) && !d.report.Malformed?
    ensures AnswerOf(DeliveryEffects(s, d)) == Some(Ack) ==> Handed(DeliveryEffects(s, d))
    ensures d.delivered.Some? && d.delivered.value >= s.maxDeliver ==>
      Handed(DeliveryEffects(s, d)) || DlqPublish(false) in DeliveryEffects(s, d)
  {
    DeliveryAnswered(s, d);
    var e, dlq := Effects(s, d.report), DlqEffects(s, d);
    assert DeliveryEffects(s, d) == e + dlq;
    if d.report.Acked? {
      AckFollowsPublish(s, d.report);
      assert e[|e| - 1] == Ack && DeliveryEffects(s, d)[|e| - 1] == Ack;
      DeliveryAckIsSafe(s, d);
    } else if GoesToDlq(s, d) {
      assert (e + dlq)[|e|] == DlqPublish(d.dlq);
    }
  }

  /** A malformed message is acknowledged at once, without a publish; it reaches the DLQ only when
      a single delivery is allowed or it had been delivered that often before. */
  lemma MalformedIsDropped(s: Settings, d: Delivery)
    requires d.report.Malformed?
    ensures DeliveryEffects(s, d)[0] == Ack && Published(DeliveryEffects(s, d)) == 0
    ensures (exists ok :: DlqPublish(ok) in DeliveryEffects(s, d)) <==>
      d.delivered.Some? && d.delivered.value >= s.maxDeliver
  {
    var tail := DlqEffects(s, d);
    CountOne(Ack);
    CountAppend([Ack], tail);
    if GoesToDlq(s, d) {
      CountOne(DlqPublish(d.dlq));
      CountAppend([DlqPublish(d.dlq)], if d.dlq then [Ack] else []);
      assert tail == [DlqPublish(d.dlq)] + if d.dlq then [Ack] else [];
      assert DeliveryEffects(s, d)[1] == DlqPublish(d.dlq);
    }
  }
}
