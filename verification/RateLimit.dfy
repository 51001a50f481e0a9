/** The Redis-backed limiters of classification/internal/middleware/ratelimit.go. INCR, EXPIRE and DECR are
    separate commands, so other requests interleave between them. Times are milliseconds. */
module RateLimits {
  import opened Collections

  // ---------------------------------------------------------------------------
  // RateLimitMiddleware: one user's fixed-window counter
  // ---------------------------------------------------------------------------

  /** Commands on the key, and Redis dropping it once its time has come. */
  datatype Step = Incr(now: int) | Expire(now: int) | Lapse(now: int)

  /** An admitted request and the lifetime of the key it was counted in. */
  datatype Admission = Admission(now: int, life: nat)

  /** `count` is 0 while there is no key; `unset` says that the request that created it has yet to set
      the expiration; `starts` are the times of the first INCR of each lifetime. */
  datatype State = State(
    count: nat, expiresAt: Option<int>, unset: bool, starts: seq<int>, log: seq<Admission>, clock: int)

  const FRESH := State(0, None, false, [], [], 0)

  predicate Enabled(s: State, step: Step) {
    && s.clock <= step.now
    && match step
       case Incr(_) => true
       case Expire(_) => s.unset
       case Lapse(now) => s.expiresAt.Some? && s.expiresAt.value <= now
  }

  function Next(s: State, limit: int, window: nat, step: Step): State {
    match step
    case Incr(now) =>
      var count := s.count + 1;
      var starts := if count == 1 then s.starts + [now] else s.starts;
      s.(count := count, unset := s.unset || count == 1, starts := starts, clock := now,
         log := if count > limit || starts == [] then s.log else s.log + [Admission(now, |starts| - 1)])
    case Expire(now) => s.(expiresAt := Some(now + window), unset := false, clock := now)
    case Lapse(now) => s.(count := 0, expiresAt := None, clock := now)
  }

  function Run(limit: int, window: nat, steps: seq<Step>): State {
    if steps == [] then FRESH else Next(Run(limit, window, steps[..|steps| - 1]), limit, window, steps[|steps| - 1])
  }

  ghost predicate IsTrace(limit: int, window: nat, steps: seq<Step>) {
    steps == [] ||
    (IsTrace(limit, window, steps[..|steps| - 1]) &&
     Enabled(Run(limit, window, steps[..|steps| - 1]), steps[|steps| - 1]))
  }

  function OfLife(log: seq<Admission>, life: int): nat {
    if log == [] then 0 else OfLife(log[..|log| - 1], life) + if log[|log| - 1].life == life then 1 else 0
  }

  predicate Within(a: Admission, lo: int, hi: int) { lo <= a.now < hi }

  /** Requests admitted at a time in [lo, hi). */
  function Admitted(log: seq<Admission>, lo: int, hi: int): nat {
    if log == [] then 0 else Admitted(log[..|log| - 1], lo, hi) + if Within(log[|log| - 1], lo, hi) then 1 else 0
  }

  /** Lifetimes are at least a window apart, and the key is there from the first INCR on. */
  ghost predicate Spaced(s: State, window: nat) {
    && (s.count > 0 ==> s.starts != [] && s.starts[|s.starts| - 1] <= s.clock)
    && (s.expiresAt.Some? ==> s.count > 0 && s.starts[|s.starts| - 1] + window <= s.expiresAt.value)
    && (s.unset ==> s.count > 0 && s.expiresAt.None?)
    && (s.count == 0 && s.starts != [] ==> s.starts[|s.starts| - 1] + window <= s.clock)
    && StartsApart(s.starts, window)
  }

  /** Admissions lie within their lifetimes. */
  ghost predicate Placed(s: State, a: Admission) {
    && a.life < |s.starts| && s.starts[a.life] <= a.now <= s.clock
    && (a.life + 1 < |s.starts| ==> a.now <= s.starts[a.life + 1])
  }

  ghost predicate AllPlaced(s: State) {
    forall i :: 0 <= i < |s.log| ==> Placed(s, s.log[i])
  }

  ghost predicate StartsApart(starts: seq<int>, window: nat) {
    forall k :: 0 <= k < |starts| - 1 ==> starts[k] + window <= starts[k + 1]
  }

  lemma StartsApartAppend(starts: seq<int>, window: nat, now: int)
    requires StartsApart(starts, window) && (starts != [] ==> starts[|starts| - 1] + window <= now)
    ensures StartsApart(starts + [now], window)
  {
  }

  lemma SpacedStep(s: State, limit: int, window: nat, step: Step)
    requires Spaced(s, window) && Enabled(s, step)
    ensures Spaced(Next(s, limit, window, step), window)
  {
    if step.Incr? && s.count == 0 {
      StartsApartAppend(s.starts, window, step.now);
    }
  }

  lemma {:induction false} RunSpaced(limit: int, window: nat, steps: seq<Step>)
    requires IsTrace(limit, window, steps)
    ensures Spaced(Run(limit, window, steps), window)
  {
    if steps != [] {
      RunSpaced(limit, window, steps[..|steps| - 1]);
      SpacedStep(Run(limit, window, steps[..|steps| - 1]), limit, window, steps[|steps| - 1]);
    }
  }

  lemma PlacedStep(s: State, limit: int, window: nat, step: Step)
    requires Spaced(s, window) && Enabled(s, step) && AllPlaced(s)
    ensures AllPlaced(Next(s, limit, window, step))
  {
    var t := Next(s, limit, window, step);
    forall i | 0 <= i < |t.log| ensures Placed(t, t.log[i]) {
      assert i < |s.log| ==> Placed(s, s.log[i]);
    }
  }

  lemma {:induction false} RunPlaced(limit: int, window: nat, steps: seq<Step>)
    requires IsTrace(limit, window, steps)
    ensures AllPlaced(Run(limit, window, steps))
  {
    if steps != [] {
      var init := steps[..|steps| - 1];
      RunSpaced(limit, window, init);
      RunPlaced(limit, window, init);
      PlacedStep(Run(limit, window, init), limit, window, steps[|steps| - 1]);
    }
  }

  ghost predicate NoLaterLife(log: seq<Admission>, life: int) {
    forall i :: 0 <= i < |log| ==> log[i].life <= life
  }

  lemma {:induction false} NoneOfLater(log: seq<Admission>, life: int)
    requires NoLaterLife(log, life - 1)
    ensures OfLife(log, life) == 0
  {
    if log != [] {
      NoneOfLater(log[..|log| - 1], life);
    }
  }

  lemma OneMoreOfLife(log: seq<Admission>, a: Admission, life: int)
    ensures OfLife(log + [a], life) == OfLife(log, life) + if a.life == life then 1 else 0
  {
    assert (log + [a])[..|log|] == log;
  }

  /** The first `limit` of `count` requests. */
  function UpTo(limit: int, count: nat): nat {
    if limit < 0 then 0 else if count <= limit then count else limit
  }

  /** A lifetime has admitted its first `limit` requests. */
  ghost predicate LifeCounted(s: State, limit: int, life: nat) {
    if s.count > 0 && life == |s.starts| - 1 then OfLife(s.log, life) == UpTo(limit, s.count)
    else OfLife(s.log, life) <= (if limit < 0 then 0 else limit)
  }

  lemma LaterLivesEmpty(s: State)
    requires AllPlaced(s)
    ensures OfLife(s.log, |s.starts|) == 0
  {
    forall i | 0 <= i < |s.log| ensures s.log[i].life <= |s.starts| - 1 {
      assert Placed(s, s.log[i]);
    }
    NoneOfLater(s.log, |s.starts|);
  }

  lemma LifeStep(s: State, limit: int, window: nat, step: Step, life: nat)
    requires Spaced(s, window) && OfLife(s.log, |s.starts|) == 0 && LifeCounted(s, limit, life)
    ensures LifeCounted(Next(s, limit, window, step), limit, life)
  {
    if step.Incr? {
      OneMoreOfLife(s.log, Admission(step.now, |Next(s, limit, window, step).starts| - 1), life);
    }
  }

  lemma {:induction false} RunLifeCounted(limit: int, window: nat, steps: seq<Step>, life: nat)
    requires IsTrace(limit, window, steps)
    ensures LifeCounted(Run(limit, window, steps), limit, life)
  {
    if steps != [] {
      var init := steps[..|steps| - 1];
      RunLifeCounted(limit, window, init, life);
      RunSpaced(limit, window, init);
      RunPlaced(limit, window, init);
      LaterLivesEmpty(Run(limit, window, init));
      LifeStep(Run(limit, window, init), limit, window, steps[|steps| - 1], life);
    }
  }

  /** At most `limit` requests are admitted in one lifetime of the key, whoever interleaves. */
  lemma AtMostLimitPerLife(limit: nat, window: nat, steps: seq<Step>, life: nat)
    requires IsTrace(limit, window, steps)
    ensures OfLife(Run(limit, window, steps).log, life) <= limit
  {
    RunLifeCounted(limit, window, steps, life);
  }

  // ---------------------------------------------------------------------------
  // Any interval of one window
  // ---------------------------------------------------------------------------

  lemma {:induction false} StartsSpaced(s: State, window: nat, i: int, j: int)
    requires Spaced(s, window) && 0 <= i < j < |s.starts|
    ensures s.starts[i] + window <= s.starts[j]
  {
    if i < j - 1 {
      StartsSpaced(s, window, i, j - 1);
    }
  }

  /** Three lifetimes do not meet in one window. */
  lemma TwoLives(s: State, window: nat, a: Admission, b: Admission)
    requires Spaced(s, window) && Placed(s, a) && Placed(s, b)
    requires b.now - a.now < window
    ensures b.life <= a.life + 1
  {
    if b.life > a.life + 1 {
      StartsSpaced(s, window, a.life + 1, b.life);
    }
  }

  /** The admissions in [lo, hi) that belong to a lifetime. */
  function AdmittedOf(log: seq<Admission>, lo: int, hi: int, life: int): nat {
    if log == [] then 0
    else
      var a := log[|log| - 1];
      AdmittedOf(log[..|log| - 1], lo, hi, life) + if Within(a, lo, hi) && a.life == life then 1 else 0
  }

  lemma {:induction false} SplitByLife(log: seq<Admission>, lo: int, hi: int, life: int)
    requires forall i :: 0 <= i < |log| && Within(log[i], lo, hi) ==> log[i].life == life || log[i].life == life + 1
    ensures Admitted(log, lo, hi) == AdmittedOf(log, lo, hi, life) + AdmittedOf(log, lo, hi, life + 1)
  {
    if log != [] {
      SplitByLife(log[..|log| - 1], lo, hi, life);
    }
  }

  lemma {:induction false} AdmittedOfBound(log: seq<Admission>, lo: int, hi: int, life: int)
    ensures AdmittedOf(log, lo, hi, life) <= OfLife(log, life)
    ensures (exists i :: 0 <= i < |log| && log[i].life == life && !Within(log[i], lo, hi)) ==>
      AdmittedOf(log, lo, hi, life) < OfLife(log, life)
  {
    if log != [] {
      var n := |log| - 1;
      AdmittedOfBound(log[..n], lo, hi, life);
      if i :| 0 <= i < |log| && log[i].life == life && !Within(log[i], lo, hi) {
        if i < n {
          assert log[..n][i] == log[i];
        }
      }
    }
  }

  lemma {:induction false} AdmittedOfWitness(log: seq<Admission>, lo: int, hi: int, life: int) returns (i: int)
    requires AdmittedOf(log, lo, hi, life) > 0
    ensures 0 <= i < |log| && Within(log[i], lo, hi) && log[i].life == life
  {
    var n := |log| - 1;
    if Within(log[n], lo, hi) && log[n].life == life {
      i := n;
    } else {
      i := AdmittedOfWitness(log[..n], lo, hi, life);
    }
  }

  lemma {:induction false} EarliestWithin(log: seq<Admission>, lo: int, hi: int) returns (i: int)
    requires Admitted(log, lo, hi) > 0
    ensures 0 <= i < |log| && Within(log[i], lo, hi)
    ensures forall j :: 0 <= j < |log| && Within(log[j], lo, hi) ==> log[i].life <= log[j].life
  {
    var n := |log| - 1;
    if Admitted(log[..n], lo, hi) == 0 {
      i := n;
      forall j | 0 <= j < n ensures !Within(log[j], lo, hi) {
        NoneWithin(log[..n], lo, hi, j);
      }
    } else {
      i := EarliestWithin(log[..n], lo, hi);
      if Within(log[n], lo, hi) && log[n].life < log[i].life {
        i := n;
      }
    }
  }

  lemma {:induction false} NoneWithin(log: seq<Admission>, lo: int, hi: int, j: int)
    requires Admitted(log, lo, hi) == 0 && 0 <= j < |log|
    ensures !Within(log[j], lo, hi)
  {
    if j < |log| - 1 {
      NoneWithin(log[..|log| - 1], lo, hi, j);
    }
  }

  /** The first request of every lifetime is admitted, at its start. */
  lemma {:induction false} StartAdmitted(limit: nat, window: nat, steps: seq<Step>, life: nat) returns (i: int)
    requires 1 <= limit && IsTrace(limit, window, steps) && life < |Run(limit, window, steps).starts|
    ensures 0 <= i < |Run(limit, window, steps).log|
    ensures Run(limit, window, steps).log[i] == Admission(Run(limit, window, steps).starts[life], life)
  {
    var init := steps[..|steps| - 1];
    if life < |Run(limit, window, init).starts| {
      i := StartAdmitted(limit, window, init, life);
    } else {
      i := |Run(limit, window, init).log|;
    }
  }

  /** When a window holds requests of two lifetimes, the first request of the earlier one is outside. */
  lemma LivesBound(s: State, limit: nat, window: nat, lo: int, life: nat, first: int)
    requires 1 <= limit && Spaced(s, window) && AllPlaced(s)
    requires OfLife(s.log, life) <= limit && OfLife(s.log, life + 1) <= limit
    requires life < |s.starts| ==> 0 <= first < |s.log| && s.log[first] == Admission(s.starts[life], life)
    ensures AdmittedOf(s.log, lo, lo + window, life) + AdmittedOf(s.log, lo, lo + window, life + 1) < 2 * limit
  {
    AdmittedOfBound(s.log, lo, lo + window, life);
    AdmittedOfBound(s.log, lo, lo + window, life + 1);
    if AdmittedOf(s.log, lo, lo + window, life + 1) > 0 {
      var b := AdmittedOfWitness(s.log, lo, lo + window, life + 1);
      assert Placed(s, s.log[b]);
      StartsSpaced(s, window, life, life + 1);
      assert !Within(s.log[first], lo, lo + window);
    }
  }

  lemma SplitAround(s: State, window: nat, lo: int) returns (life: nat)
    requires Spaced(s, window) && AllPlaced(s) && Admitted(s.log, lo, lo + window) > 0
    ensures life < |s.starts|
    ensures Admitted(s.log, lo, lo + window) ==
      AdmittedOf(s.log, lo, lo + window, life) + AdmittedOf(s.log, lo, lo + window, life + 1)
  {
    var f := EarliestWithin(s.log, lo, lo + window);
    assert Placed(s, s.log[f]);
    life := s.log[f].life;
    forall i | 0 <= i < |s.log| && Within(s.log[i], lo, lo + window)
      ensures s.log[i].life == life || s.log[i].life == life + 1 {
      assert Placed(s, s.log[i]);
      TwoLives(s, window, s.log[f], s.log[i]);
    }
    SplitByLife(s.log, lo, lo + window, life);
  }

  lemma BoundOfLife(limit: nat, window: nat, steps: seq<Step>, lo: int, life: nat)
    requires 1 <= limit && IsTrace(limit, window, steps) && life < |Run(limit, window, steps).starts|
    ensures var log := Run(limit, window, steps).log;
      AdmittedOf(log, lo, lo + window, life) + AdmittedOf(log, lo, lo + window, life + 1) < 2 * limit
  {
    RunSpaced(limit, window, steps);
    RunPlaced(limit, window, steps);
    var first := StartAdmitted(limit, window, steps, life);
    AtMostLimitPerLife(limit, window, steps, life);
    AtMostLimitPerLife(limit, window, steps, life + 1);
    LivesBound(Run(limit, window, steps), limit, window, lo, life, first);
  }

  /** In any interval of one window fewer than `2 * limit` requests are admitted. */
  lemma FewerThanTwiceLimit(limit: nat, window: nat, steps: seq<Step>, lo: int)
    requires 1 <= limit && IsTrace(limit, window, steps)
    ensures Admitted(Run(limit, window, steps).log, lo, lo + window) < 2 * limit
  {
    RunSpaced(limit, window, steps);
    RunPlaced(limit, window, steps);
    if Admitted(Run(limit, window, steps).log, lo, lo + window) > 0 {
      var life := SplitAround(Run(limit, window, steps), window, lo);
      BoundOfLife(limit, window, steps, lo, life);
    }
  }

  // ---------------------------------------------------------------------------
  // The bound is reached
  // ---------------------------------------------------------------------------

  lemma RunStep(limit: int, window: nat, steps: seq<Step>, step: Step)
    ensures Run(limit, window, steps + [step]) == Next(Run(limit, window, steps), limit, window, step)
    ensures IsTrace(limit, window, steps + [step]) <==>
      IsTrace(limit, window, steps) && Enabled(Run(limit, window, steps), step)
  {
    assert (steps + [step])[..|steps|] == steps;
  }

  lemma OneMoreAdmitted(log: seq<Admission>, a: Admission, lo: int, hi: int)
    ensures Admitted(log + [a], lo, hi) == Admitted(log, lo, hi) + if Within(a, lo, hi) then 1 else 0
  {
    assert (log + [a])[..|log|] == log;
  }

  /** `t` is `s` after `n` more requests at `now`, all admitted. */
  ghost predicate TookIn(s: State, t: State, now: int, n: nat, lo: int, hi: int) {
    && t.count == s.count + n && t.expiresAt == s.expiresAt && t.clock <= now
    && (t.count > 0 ==> t.starts != [])
    && Admitted(t.log, lo, hi) == Admitted(s.log, lo, hi) + n
  }

  lemma TakesOneIn(s: State, t: State, limit: nat, window: nat, now: int, n: nat, lo: int, hi: int)
    requires TookIn(s, t, now, n, lo, hi) && s.count + n < limit && lo <= now < hi
    ensures TookIn(s, Next(t, limit, window, Incr(now)), now, n + 1, lo, hi)
  {
    OneMoreAdmitted(t.log, Admission(now, |Next(t, limit, window, Incr(now)).starts| - 1), lo, hi);
  }

  lemma BurstStep(limit: nat, window: nat, s: State, before: seq<Step>, now: int, n: nat, lo: int, hi: int)
    requires IsTrace(limit, window, before) && TookIn(s, Run(limit, window, before), now, n, lo, hi)
    requires s.count + n < limit && lo <= now < hi
    ensures IsTrace(limit, window, before + [Incr(now)])
    ensures TookIn(s, Run(limit, window, before + [Incr(now)]), now, n + 1, lo, hi)
  {
    RunStep(limit, window, before, Incr(now));
    TakesOneIn(s, Run(limit, window, before), limit, window, now, n, lo, hi);
  }

  /** A burst within the limit is admitted whole. */
  lemma {:induction false} BurstAdmitted(limit: nat, window: nat, s: State, steps: seq<Step>, now: int, n: nat,
                                         lo: int, hi: int)
    returns (all: seq<Step>)
    requires IsTrace(limit, window, steps) && TookIn(s, Run(limit, window, steps), now, 0, lo, hi)
    requires s.count + n <= limit && lo <= now < hi
    ensures IsTrace(limit, window, all) && TookIn(s, Run(limit, window, all), now, n, lo, hi)
  {
    if n == 0 {
      all := steps;
    } else {
      var before := BurstAdmitted(limit, window, s, steps, now, n - 1, lo, hi);
      BurstStep(limit, window, s, before, now, n - 1, lo, hi);
      all := before + [Incr(now)];
    }
  }

  /** One request, counted before the interval, and the expiration set. */
  lemma FirstRequest(limit: nat, window: nat) returns (steps: seq<Step>)
    requires 1 <= limit && 1 <= window
    ensures IsTrace(limit, window, steps)
    ensures var s := Run(limit, window, steps);
      s.count == 1 && s.expiresAt == Some(window) && s.clock == 0 && s.starts != [] &&
      Admitted(s.log, window, 2 * window) == 0
  {
    assert IsTrace(limit, window, []) && Run(limit, window, []) == FRESH;
    RunStep(limit, window, [], Incr(0));
    OneMoreAdmitted([], Admission(0, 0), window, 2 * window);
    RunStep(limit, window, [] + [Incr(0)], Expire(0));
    steps := [] + [Incr(0)] + [Expire(0)];
  }

  /** For every limit and window there is a run that admits `2 * limit - 1` requests within one window: the
      promised rate is met per lifetime of the key only. */
  lemma BoundIsTight(limit: nat, window: nat) returns (steps: seq<Step>)
    requires 1 <= limit && 1 <= window
    ensures IsTrace(limit, window, steps)
    ensures Admitted(Run(limit, window, steps).log, window, 2 * window) == 2 * limit - 1
  {
    var lo, hi := window, 2 * window;
    var first := FirstRequest(limit, window);
    var full := BurstAdmitted(limit, window, Run(limit, window, first), first, window, limit - 1, lo, hi);
    RunStep(limit, window, full, Lapse(window));
    var empty := full + [Lapse(window)];
    steps := BurstAdmitted(limit, window, Run(limit, window, empty), empty, window, limit, lo, hi);
  }

  /** The key's value and expiration after a trace. */
  ghost predicate KeyAfter(limit: int, window: nat, steps: seq<Step>, count: nat, expiresAt: Option<int>, clock: int) {
    var s := Run(limit, window, steps);
    IsTrace(limit, window, steps) && s.count == count && s.expiresAt == expiresAt && !s.unset && s.clock == clock
  }

  lemma LapseThen(limit: int, window: nat, steps: seq<Step>, count: nat, expiresAt: Option<int>, clock: int, now: int)
    requires KeyAfter(limit, window, steps, count, expiresAt, clock) && clock <= now
    requires expiresAt.Some? && expiresAt.value <= now
    ensures KeyAfter(limit, window, steps + [Lapse(now)], 0, None, now)
  {
    RunStep(limit, window, steps, Lapse(now));
  }

  lemma CountThen(limit: int, window: nat, steps: seq<Step>, count: nat, expiresAt: Option<int>, clock: int, now: int)
    requires KeyAfter(limit, window, steps, count, expiresAt, clock) && clock <= now && count > 0
    ensures KeyAfter(limit, window, steps + [Incr(now)], count + 1, expiresAt, now)
  {
    RunStep(limit, window, steps, Incr(now));
  }

  lemma ExpireThen(limit: int, window: nat, steps: seq<Step>, now: int)
    requires IsTrace(limit, window, steps) && Enabled(Run(limit, window, steps), Expire(now))
    requires Run(limit, window, steps).count == 1
    ensures KeyAfter(limit, window, steps + [Expire(now)], 1, Some(now + window), now)
  {
    RunStep(limit, window, steps, Expire(now));
  }

  lemma FirstThen(limit: int, window: nat, steps: seq<Step>, expiresAt: Option<int>, clock: int, now: int)
    requires KeyAfter(limit, window, steps, 0, expiresAt, clock) && clock <= now
    ensures KeyAfter(limit, window, steps + [Incr(now)] + [Expire(now)], 1, Some(now + window), now)
  {
    RunStep(limit, window, steps, Incr(now));
    ExpireThen(limit, window, steps + [Incr(now)], now);
  }

  /** One request, run alone: its INCR and, for the first of a lifetime, its EXPIRE. */
  class Limiter {
    const limit: int
    const window: nat
    var count: nat
    var expiresAt: Option<int>
    ghost var clock: int
    ghost var trace: seq<Step>

    ghost predicate Valid() reads this {
      KeyAfter(limit, window, trace, count, expiresAt, clock)
    }

    constructor (limit: int, window: nat)
      ensures Valid() && trace == [] && clock == 0 && this.limit == limit && this.window == window
    {
      this.limit, this.window := limit, window;
      count, expiresAt, clock, trace := 0, None, 0, [];
    }

    /** Redis drops a key whose time has come. */
    method DropIfDue(now: int)
      requires Valid() && clock <= now
      modifies this
      ensures Valid() && clock <= now && old(trace) <= trace
      ensures if old(expiresAt).Some? && old(expiresAt).value <= now then count == 0 && expiresAt == None
              else count == old(count) && expiresAt == old(expiresAt)
    {
      if expiresAt.Some? && expiresAt.value <= now {
        LapseThen(limit, window, trace, count, expiresAt, clock, now);
        trace, clock := trace + [Lapse(now)], now;
        count, expiresAt := 0, None;
      }
    }

    /** INCR and, on the first of a lifetime, EXPIRE. */
    method Count(now: int)
      requires Valid() && clock <= now
      modifies this
      ensures Valid() && clock == now && old(trace) <= trace && count == old(count) + 1
      ensures expiresAt == if count == 1 then Some(now + window) else old(expiresAt)
    {
      if count > 0 {
        CountThen(limit, window, trace, count, expiresAt, clock, now);
      } else {
        FirstThen(limit, window, trace, expiresAt, clock, now);
      }
      trace, clock := trace + [Incr(now)], now;
      count := count + 1;
      if count == 1 {
        trace := trace + [Expire(now)];
        expiresAt := Some(now + window);
      }
    }

    method Handle(now: int) returns (admitted: bool, remaining: int)
      requires Valid() && clock <= now
      modifies this
      ensures Valid() && clock == now && old(trace) <= trace
      ensures var counted := if old(expiresAt).Some? && old(expiresAt).value <= now then 1 else old(count) + 1;
        && count == counted && admitted == (counted <= limit)
        && expiresAt == (if counted == 1 then Some(now + window) else old(expiresAt))
        && remaining == if counted <= limit then limit - counted else 0
    {
      DropIfDue(now);
      Count(now);
      remaining := limit - count;
      if remaining < 0 {
        remaining := 0;
      }
      admitted := !(count > limit);
    }
  }

  // ---------------------------------------------------------------------------
  // ConnectionLimiter
  // ---------------------------------------------------------------------------

  /** The commands on the key: the INCR of an Acquire, which decides; the EXPIRE of the attempt that counted
      to one; the DECR that takes a rejected attempt back; the DECR of a Release; Redis dropping the key. */
  datatype ConnStep = Acquire(conn: nat) | SetTtl | Rollback(conn: nat) | Release(conn: nat) | KeyExpired

  /** `key` says whether the key exists and `ttl` whether it has an expiration; `owed` counts the attempts
      that have yet to set one; connections held, and attempts whose rollback is still to come. */
  datatype ConnState = ConnState(count: int, key: bool, ttl: bool, owed: nat, held: set<nat>, rejecting: set<nat>)

  const NO_CONNECTIONS := ConnState(0, false, false, 0, {}, {})

  predicate ConnEnabled(s: ConnState, step: ConnStep) {
    match step
    case Acquire(c) => c !in s.held && c !in s.rejecting
    case SetTtl => s.owed > 0
    case Rollback(c) => c in s.rejecting
    case Release(c) => c in s.held
    case KeyExpired => s.ttl
  }

  function ConnNext(s: ConnState, limit: int, step: ConnStep): ConnState {
    match step
    case Acquire(c) =>
      var count := s.count + 1;
      var t := s.(count := count, key := true, owed := if count == 1 then s.owed + 1 else s.owed);
      if count > limit then t.(rejecting := s.rejecting + {c}) else t.(held := s.held + {c})
    case SetTtl => s.(ttl := s.key, owed := if s.owed > 0 then s.owed - 1 else 0)
    case Rollback(c) => s.(count := s.count - 1, key := true, rejecting := s.rejecting - {c})
    case Release(c) => s.(count := s.count - 1, key := true, held := s.held - {c})
    case KeyExpired => s.(count := 0, key := false, ttl := false)
  }

  /** The state after `steps` from a state. */
  function ConnRun(limit: int, s: ConnState, steps: seq<ConnStep>): ConnState {
    if steps == [] then s
    else ConnNext(ConnRun(limit, s, steps[..|steps| - 1]), limit, steps[|steps| - 1])
  }

  ghost predicate IsConnTrace(limit: int, s: ConnState, steps: seq<ConnStep>) {
    steps == [] ||
    (IsConnTrace(limit, s, steps[..|steps| - 1]) &&
     ConnEnabled(ConnRun(limit, s, steps[..|steps| - 1]), steps[|steps| - 1]))
  }

  ghost predicate NeverExpires(steps: seq<ConnStep>) {
    forall i :: 0 <= i < |steps| ==> steps[i] != KeyExpired
  }

  ghost predicate Counted(s: ConnState, limit: int) {
    && s.count == |s.held| + |s.rejecting| && s.held !! s.rejecting
    && |s.held| <= if limit < 0 then 0 else limit
  }

  lemma CountedStep(s: ConnState, limit: int, step: ConnStep)
    requires Counted(s, limit) && ConnEnabled(s, step) && step != KeyExpired
    ensures Counted(ConnNext(s, limit, step), limit)
  {
  }

  lemma ConnRunStep(limit: int, s: ConnState, steps: seq<ConnStep>, step: ConnStep)
    ensures ConnRun(limit, s, steps + [step]) == ConnNext(ConnRun(limit, s, steps), limit, step)
    ensures IsConnTrace(limit, s, steps + [step]) <==>
      IsConnTrace(limit, s, steps) && ConnEnabled(ConnRun(limit, s, steps), step)
  {
    assert (steps + [step])[..|steps|] == steps;
  }

  /** Without a key there is no count and no expiration. */
  lemma {:induction false} KeyHoldsCount(limit: int, steps: seq<ConnStep>)
    requires IsConnTrace(limit, NO_CONNECTIONS, steps)
    ensures var s := ConnRun(limit, NO_CONNECTIONS, steps); !s.key ==> s.count == 0 && !s.ttl
  {
    if steps != [] {
      KeyHoldsCount(limit, steps[..|steps| - 1]);
    }
  }

  /** From a state that counts right, every continuation without an expiry does. */
  lemma {:induction false} CountedFrom(limit: int, s: ConnState, more: seq<ConnStep>)
    requires Counted(s, limit) && IsConnTrace(limit, s, more) && NeverExpires(more)
    ensures Counted(ConnRun(limit, s, more), limit)
  {
    if more != [] {
      var init := more[..|more| - 1];
      CountedFrom(limit, s, init);
      CountedStep(ConnRun(limit, s, init), limit, more[|more| - 1]);
    }
  }

  /** With every Acquire and Release interleaved at the level of single commands the counter is the
      connections held plus the rejections under way, and no more than `limit` are ever held. */
  lemma HeldWithinLimit(limit: int, steps: seq<ConnStep>)
    requires IsConnTrace(limit, NO_CONNECTIONS, steps) && NeverExpires(steps)
    ensures Counted(ConnRun(limit, NO_CONNECTIONS, steps), limit)
  {
    CountedFrom(limit, NO_CONNECTIONS, steps);
  }

  /** An attempt is rejected exactly when held connections and rejections under way fill the limit. */
  lemma RejectedIff(limit: int, steps: seq<ConnStep>, c: nat)
    requires IsConnTrace(limit, NO_CONNECTIONS, steps) && NeverExpires(steps)
    requires ConnEnabled(ConnRun(limit, NO_CONNECTIONS, steps), Acquire(c))
    ensures var s := ConnRun(limit, NO_CONNECTIONS, steps);
      c in ConnNext(s, limit, Acquire(c)).rejecting <==> |s.held| + |s.rejecting| >= limit
  {
    HeldWithinLimit(limit, steps);
  }

  // ---------------------------------------------------------------------------
  // The expiry of the connection key
  // ---------------------------------------------------------------------------

  /** Connections numbered from `base` on are new. */
  ghost predicate FreshFrom(s: ConnState, base: nat) {
    forall c :: c in s.held + s.rejecting ==> c < base
  }

  lemma {:induction false} Above(conns: set<nat>) returns (base: nat)
    ensures forall c :: c in conns ==> c < base
  {
    if conns == {} {
      base := 0;
    } else {
      var c :| c in conns;
      base := Above(conns - {c});
      if base <= c {
        base := c + 1;
      }
      forall d | d in conns ensures d < base {
        assert d == c || d in conns - {c};
      }
    }
  }

  /** `n` more connections are held, from `base` on, and counted. */
  ghost predicate LetIn(s: ConnState, t: ConnState, base: nat, n: nat) {
    t.count == s.count + n && |t.held| == |s.held| + n && FreshFrom(t, base + n)
  }

  lemma LetsOneIn(s: ConnState, t: ConnState, limit: nat, base: nat, n: nat)
    requires LetIn(s, t, base, n) && s.count + n < limit
    ensures ConnEnabled(t, Acquire(base + n))
    ensures LetIn(s, ConnNext(t, limit, Acquire(base + n)), base, n + 1)
  {
    assert base + n !in t.held + t.rejecting;
  }

  /** The attempts can run from `s`, and all are let in. */
  ghost predicate AllLetIn(limit: nat, s: ConnState, steps: seq<ConnStep>, base: nat, n: nat) {
    IsConnTrace(limit, s, steps) && LetIn(s, ConnRun(limit, s, steps), base, n)
  }

  lemma OneMoreLetIn(limit: nat, s: ConnState, steps: seq<ConnStep>, base: nat, n: nat)
    requires AllLetIn(limit, s, steps, base, n) && s.count + n < limit
    ensures AllLetIn(limit, s, steps + [Acquire(base + n)], base, n + 1)
  {
    LetsOneIn(s, ConnRun(limit, s, steps), limit, base, n);
    ConnRunStep(limit, s, steps, Acquire(base + n));
  }

  /** As long as the counter is below the limit, newcomers are let in, whatever is held already. */
  lemma {:induction false} NewcomersLetIn(limit: nat, s: ConnState, base: nat, n: nat) returns (steps: seq<ConnStep>)
    requires FreshFrom(s, base) && s.count + n <= limit
    ensures NeverExpires(steps) && AllLetIn(limit, s, steps, base, n)
  {
    if n == 0 {
      steps := [];
    } else {
      var before := NewcomersLetIn(limit, s, base, n - 1);
      OneMoreLetIn(limit, s, before, base, n - 1);
      steps := before + [Acquire(base + n - 1)];
    }
  }

  /** No continuation without a further expiry holds more than the limit. */
  ghost predicate SafeFrom(limit: nat, s: ConnState) {
    forall more :: NeverExpires(more) && IsConnTrace(limit, s, more) ==> |ConnRun(limit, s, more).held| <= limit
  }

  lemma Exceeds(limit: nat, s: ConnState, more: seq<ConnStep>)
    requires NeverExpires(more) && IsConnTrace(limit, s, more) && |ConnRun(limit, s, more).held| > limit
    ensures !SafeFrom(limit, s)
  {
  }

  /** Newcomers up to the limit, beside at least one connection that the counter has forgotten. */
  lemma ForgottenHeld(limit: nat, s: ConnState)
    requires s.count <= limit && |s.held| > s.count
    ensures !SafeFrom(limit, s)
  {
    var base := Above(s.held + s.rejecting);
    var more := NewcomersLetIn(limit, s, base, limit - s.count);
    Exceeds(limit, s, more);
  }

  lemma {:induction false} ConnRunCons(limit: nat, s: ConnState, step: ConnStep, more: seq<ConnStep>)
    ensures ConnRun(limit, s, [step] + more) == ConnRun(limit, ConnNext(s, limit, step), more)
    ensures IsConnTrace(limit, s, [step] + more) <==>
      ConnEnabled(s, step) && IsConnTrace(limit, ConnNext(s, limit, step), more)
  {
    if more == [] {
      ConnRunStep(limit, s, [], step);
      assert [] + [step] == [step] + more;
    } else {
      var init, last := more[..|more| - 1], more[|more| - 1];
      ConnRunCons(limit, s, step, init);
      ConnRunStep(limit, s, [step] + init, last);
      assert [step] + init + [last] == [step] + more;
    }
  }

  lemma UnsafeBefore(limit: nat, s: ConnState, step: ConnStep)
    requires ConnEnabled(s, step) && step != KeyExpired && !SafeFrom(limit, ConnNext(s, limit, step))
    ensures !SafeFrom(limit, s)
  {
    var t := ConnNext(s, limit, step);
    var more :| NeverExpires(more) && IsConnTrace(limit, t, more) && |ConnRun(limit, t, more).held| > limit;
    ConnRunCons(limit, s, step, more);
    Exceeds(limit, s, [step] + more);
  }

  /** For every limit and every reachable state, earlier expiries included: an expiry of the key is
      harmless if and only if nothing is held and no rejection is under way when it happens. */
  lemma ExpiryHarmlessIff(limit: nat, steps: seq<ConnStep>)
    requires IsConnTrace(limit, NO_CONNECTIONS, steps)
    requires ConnEnabled(ConnRun(limit, NO_CONNECTIONS, steps), KeyExpired)
    ensures var s := ConnRun(limit, NO_CONNECTIONS, steps);
      SafeFrom(limit, ConnNext(s, limit, KeyExpired)) <==> s.held == {} && s.rejecting == {}
  {
    var s := ConnRun(limit, NO_CONNECTIONS, steps);
    var t := ConnNext(s, limit, KeyExpired);
    if s.held != {} {
      assert |s.held| > 0;
      ForgottenHeld(limit, t);
    } else if s.rejecting != {} {
      var c :| c in s.rejecting;
      ForgottenHeld(limit, ConnNext(t, limit, Rollback(c)));
      UnsafeBefore(limit, t, Rollback(c));
    } else {
      forall more | NeverExpires(more) && IsConnTrace(limit, t, more) ensures |ConnRun(limit, t, more).held| <= limit {
        CountedFrom(limit, t, more);
      }
    }
  }

  /** With every limit of at least one a harmful expiry is reached: a connection that outlives its key. */
  lemma ExpiryBreaksLimit(limit: nat) returns (steps: seq<ConnStep>)
    requires 1 <= limit
    ensures IsConnTrace(limit, NO_CONNECTIONS, steps) && NeverExpires(steps)
    ensures var s := ConnRun(limit, NO_CONNECTIONS, steps);
      ConnEnabled(s, KeyExpired) && !SafeFrom(limit, ConnNext(s, limit, KeyExpired))
  {
    assert IsConnTrace(limit, NO_CONNECTIONS, []) && ConnRun(limit, NO_CONNECTIONS, []) == NO_CONNECTIONS;
    ConnRunStep(limit, NO_CONNECTIONS, [], Acquire(0));
    var one := [] + [Acquire(0)];
    ConnRunStep(limit, NO_CONNECTIONS, one, SetTtl);
    steps := one + [SetTtl];
    assert 0 in ConnRun(limit, NO_CONNECTIONS, steps).held;
    ExpiryHarmlessIff(limit, steps);
  }

  /** The trace of attempts that have all run to their end leaves this counter, with these connections held. */
  ghost predicate Settled(limit: int, steps: seq<ConnStep>, count: int, held: set<nat>) {
    var s := ConnRun(limit, NO_CONNECTIONS, steps);
    && IsConnTrace(limit, NO_CONNECTIONS, steps)
    && s.count == count && s.held == held && s.owed == 0 && s.rejecting == {}
  }

  /** The commands of one Acquire with nothing in between. */
  function AcquireSteps(limit: int, count: int, conn: nat): seq<ConnStep> {
    [ConnStep.Acquire(conn)] + (if count == 0 then [SetTtl] else []) + if count >= limit then [Rollback(conn)] else []
  }

  lemma AcquireSettles(limit: int, steps: seq<ConnStep>, count: int, held: set<nat>, conn: nat)
    requires Settled(limit, steps, count, held) && conn !in held
    ensures Settled(limit, steps + AcquireSteps(limit, count, conn), if count < limit then count + 1 else count,
                    if count < limit then held + {conn} else held)
  {
    var all := steps + [ConnStep.Acquire(conn)];
    ConnRunStep(limit, NO_CONNECTIONS, steps, ConnStep.Acquire(conn));
    if count == 0 {
      ConnRunStep(limit, NO_CONNECTIONS, all, SetTtl);
      all := all + [SetTtl];
    }
    if count >= limit {
      ConnRunStep(limit, NO_CONNECTIONS, all, Rollback(conn));
      all := all + [Rollback(conn)];
      assert held + {conn} - {conn} == held;
    }
    assert all == steps + AcquireSteps(limit, count, conn);
  }

  /** One user's counter under Acquire and Release run alone; what they do to the connections is told while
      only held ones are released, as steps of the interleaved model. */
  class ConnectionLimiter {
    const limit: int
    const keyTtl: int
    var count: int
    var expiresAt: Option<int>
    ghost var held: set<nat>
    ghost var trace: seq<ConnStep>

    ghost predicate Valid() reads this {
      Settled(limit, trace, count, held)
    }

    constructor (limit: int)
      ensures Valid() && trace == [] && held == {} && this.limit == limit && count == 0 && expiresAt == None
      ensures keyTtl == 2 * 60 * 60 * 1000
    {
      this.limit, count, expiresAt, keyTtl, held, trace := limit, 0, None, 7200000, {}, [];
    }

    method Acquire(ghost conn: nat, now: int) returns (ok: bool)
      modifies this
      ensures ok <==> old(count) < limit
      ensures count == if ok then old(count) + 1 else old(count)
      ensures expiresAt == if old(count) == 0 then Some(now + keyTtl) else old(expiresAt)
      ensures old(Valid()) && conn !in old(held) ==>
        Valid() && old(trace) <= trace && held == old(held) + if ok then {conn} else {}
    {
      if Valid() && conn !in held {
        AcquireSettles(limit, trace, count, held, conn);
        trace := trace + AcquireSteps(limit, count, conn);
        held := if count < limit then held + {conn} else held;
      }
      count := count + 1;
      if count == 1 {
        expiresAt := Some(now + keyTtl);
      }
      if count > limit {
        count := count - 1;
        return false;
      }
      ok := true;
    }

    method Release(ghost conn: nat)
      modifies `count, `held, `trace
      ensures count == old(count) - 1
      ensures old(Valid()) && conn in old(held) ==>
        Valid() && trace == old(trace) + [ConnStep.Release(conn)] && held == old(held) - {conn}
    {
      ConnRunStep(limit, NO_CONNECTIONS, trace, ConnStep.Release(conn));
      trace, held := trace + [ConnStep.Release(conn)], held - {conn};
      count := count - 1;
    }
  }
}
