/** The per-user cache of active rules in front of the rule table (classification/internal/auto/loader.go).
    Times are milliseconds. */
module RuleCaches {
  import opened Collections
  import opened RuleTables

  datatype Entry = Entry(rules: seq<Rule>, expiresAt: int)

  /** Every cached list, expired or not, is what the query would answer now. */
  ghost predicate Coherent(rows: Rows, entries: map<string, Entry>) {
    forall u :: u in entries ==> IsAnswer(rows, u, entries[u].rules)
  }

  class RuleCache {
    var entries: map<string, Entry>
    const ttl: int

    constructor (ttl: int)
      ensures entries == map[] && this.ttl == ttl
    {
      entries := map[];
      this.ttl := ttl;
    }

    /** An expired entry is removed. */
    method Get(user: string, now: int) returns (r: Option<seq<Rule>>)
      modifies this
      ensures r == if user in old(entries) && now <= old(entries)[user].expiresAt
        then Some(old(entries)[user].rules) else None
      ensures entries == if r.Some? then old(entries) else old(entries) - {user}
    {
      if user !in entries {
        assert entries - {user} == entries;
        return None;
      }
      var entry := entries[user];
      if now > entry.expiresAt {
        entries := entries - {user};
        return None;
      }
      r := Some(entry.rules);
    }

    method Set(user: string, rules: seq<Rule>, now: int)
      modifies this
      ensures entries == old(entries)[user := Entry(rules, now + ttl)]
    {
      entries := entries[user := Entry(rules, now + ttl)];
    }

    method InvalidateUser(user: string)
      modifies this
      ensures entries == old(entries) - {user}
    {
      entries := entries - {user};
    }
  }

  // ---------------------------------------------------------------------------
  // Which invalidations are enough
  // ---------------------------------------------------------------------------

  /** The users whose active rows a write of one row touches. */
  ghost predicate OnlyTouches(a: Rows, b: Rows, user: string) {
    forall r: Rule :: r.userId != user ==> (ActiveRow(a, r.userId, r) <==> ActiveRow(b, r.userId, r))
  }

  lemma InvalidationKeepsCoherent(a: Rows, b: Rows, entries: map<string, Entry>, user: string)
    requires Coherent(a, entries) && OnlyTouches(a, b, user)
    ensures Coherent(b, entries - {user})
  {
    forall u | u in entries - {user} ensures IsAnswer(b, u, entries[u].rules) {
      forall r ensures ActiveRow(a, u, r) <==> ActiveRow(b, u, r) {
      }
      SameAnswer(a, b, u, entries[u].rules);
    }
  }

  lemma RowWriteTouches(rows: Rows, id: string, row: Rule, user: string)
    requires ValidRows(rows) && row.id == id && row.userId == user
    requires id in rows ==> rows[id].userId == user
    ensures OnlyTouches(rows, rows[id := row], user)
  {
  }

  lemma DeleteTouches(rows: Rows, id: string)
    requires ValidRows(rows) && id in rows
    ensures OnlyTouches(rows, rows - {id}, rows[id].userId)
  {
  }

  /** Update invalidates the user its caller names, which the row may not belong to. */
  ghost predicate UpdateKeepsCaches(rows: Rows, rule: Rule)
    requires rule.id in rows
  {
    var updated := rows[rule.id := Redefined(rows[rule.id], rule)];
    forall entries :: Coherent(rows, entries) ==> Coherent(updated, entries - {rule.userId})
  }

  lemma StaleEntry(rows: Rows, rule: Rule)
    requires ValidRows(rows) && rule.id in rows && rule.userId != rows[rule.id].userId
    requires rows[rule.id].status == "active" && Redefined(rows[rule.id], rule) != rows[rule.id]
    ensures !UpdateKeepsCaches(rows, rule)
  {
    var row := rows[rule.id];
    var updated := rows[rule.id := Redefined(row, rule)];
    var answer := AnswerExists(rows, row.userId);
    var entries := map[row.userId := Entry(answer, 0)];
    assert ActiveRow(rows, row.userId, row) && !ActiveRow(updated, row.userId, row);
    assert row in answer;
    assert Coherent(rows, entries);
    var kept := entries - {rule.userId};
    assert row.userId in kept && !IsAnswer(updated, row.userId, kept[row.userId].rules);
  }

  /** Every cache stays right exactly when the caller names the owner, or the stored rule is not
      active, or the update changes nothing. */
  lemma UpdateKeepsCachesIff(rows: Rows, rule: Rule)
    requires ValidRows(rows) && rule.id in rows
    ensures UpdateKeepsCaches(rows, rule) <==>
      rule.userId == rows[rule.id].userId || rows[rule.id].status != "active" ||
      Redefined(rows[rule.id], rule) == rows[rule.id]
  {
    var row := Redefined(rows[rule.id], rule);
    var updated := rows[rule.id := row];
    if rule.userId == rows[rule.id].userId || rows[rule.id].status != "active" || row == rows[rule.id] {
      if rule.userId == rows[rule.id].userId {
        RowWriteTouches(rows, rule.id, row, rule.userId);
      }
      forall entries | Coherent(rows, entries) ensures Coherent(updated, entries - {rule.userId}) {
        InvalidationKeepsCoherent(rows, updated, entries, rule.userId);
      }
    } else {
      StaleEntry(rows, rule);
    }
  }

  /** The cached store: each operation does what the table does, and what it answers is what the
      query would answer. */
  class CachedStore {
    const store: RuleStore
    const cache: RuleCache

    ghost predicate Valid() reads store, cache {
      store.Valid() && Coherent(store.rows, cache.entries)
    }

    constructor (store: RuleStore)
      requires store.Valid()
      ensures Valid() && this.store == store && cache.ttl == 5 * 60 * 1000 && cache.entries == map[]
      ensures fresh(cache)
    {
      this.store := store;
      cache := new RuleCache(300000);
    }

    /** `answer` is what the database would reply to the query now, None when the query would fail. A
        failure shows only when the cache has no list either. */
    method GetActiveRules(user: string, now: int, answer: Option<seq<Rule>>) returns (rules: Option<seq<Rule>>)
      requires Valid() && (answer.Some? ==> IsAnswer(store.rows, user, answer.value))
      modifies cache
      ensures Valid() && (rules.Some? ==> IsAnswer(store.rows, user, rules.value))
      ensures rules.None? <==>
        answer.None? && !(user in old(cache.entries) && now <= old(cache.entries)[user].expiresAt)
    {
      var cached := cache.Get(user, now);
      if cached.Some? {
        return cached;
      }
      if answer.None? {
        return None;
      }
      cache.Set(user, answer.value, now);
      rules := answer;
    }

    method IncrementUsage(id: string) returns (r: Outcome)
      requires Valid()
      modifies store, cache
      ensures Valid()
      ensures r == if id in old(store.rows) then Done else NotFound
      ensures store.rows == if r == Done then old(store.rows)[id := Used(old(store.rows)[id])] else old(store.rows)
    {
      var rule := store.GetByID(id);
      if rule.None? {
        return NotFound;
      }
      RowWriteTouches(store.rows, id, Used(rule.value), rule.value.userId);
      InvalidationKeepsCoherent(store.rows, store.rows[id := Used(rule.value)], cache.entries, rule.value.userId);
      store.IncrementUsage(id);
      cache.InvalidateUser(rule.value.userId);
      r := Done;
    }

    method Create(rule: Rule, newId: string, now: int, userExists: bool) returns (r: Outcome)
      requires Valid()
      modifies store, cache
      ensures Valid()
      ensures var created := Completed(rule, newId, now);
        && r == CreateOutcome(old(store.rows), created, userExists)
        && store.rows == if r == Done then old(store.rows)[created.id := created] else old(store.rows)
    {
      ghost var rows := store.rows;
      var created;
      r, created := store.Create(rule, newId, now, userExists);
      if r != Done {
        return;
      }
      RowWriteTouches(rows, created.id, created, rule.userId);
      InvalidationKeepsCoherent(rows, store.rows, cache.entries, rule.userId);
      cache.InvalidateUser(rule.userId);
    }

    /** The caller names the user to invalidate; by `UpdateKeepsCachesIff` every list stays right in
        the listed cases and no others. */
    method Update(rule: Rule) returns (r: Outcome)
      requires Valid()
      modifies store, cache
      ensures store.Valid()
      ensures r == if rule.id !in old(store.rows) then NotFound
        else if Storable(Redefined(old(store.rows)[rule.id], rule)) then Done else Rejected
      ensures store.rows ==
        if r == Done then old(store.rows)[rule.id := Redefined(old(store.rows)[rule.id], rule)] else old(store.rows)
      ensures cache.entries == if r == Done then old(cache.entries) - {rule.userId} else old(cache.entries)
      ensures r != Done || UpdateKeepsCaches(old(store.rows), rule) ==> Valid()
    {
      r := store.Update(rule);
      if r != Done {
        return;
      }
      cache.InvalidateUser(rule.userId);
    }

    method UpdateStatus(id: string, status: string, now: int) returns (r: Outcome)
      requires Valid()
      modifies store, cache
      ensures Valid()
      ensures r == if id !in old(store.rows) then NotFound
        else if status in ["staged", "active", "revoked"] then Done else InvalidStatus
      ensures store.rows ==
        if r == Done then old(store.rows)[id := WithStatus(old(store.rows)[id], status, now)] else old(store.rows)
    {
      var rule := store.GetByID(id);
      if rule.None? {
        return NotFound;
      }
      var row := WithStatus(rule.value, status, now);
      RowWriteTouches(store.rows, id, row, rule.value.userId);
      InvalidationKeepsCoherent(store.rows, store.rows[id := row], cache.entries, rule.value.userId);
      r := store.UpdateStatus(id, status, now);
      if r != Done {
        return;
      }
      cache.InvalidateUser(rule.value.userId);
    }

    method Delete(id: string) returns (r: Outcome)
      requires Valid()
      modifies store, cache
      ensures Valid()
      ensures r == if id in old(store.rows) then Done else NotFound
      ensures store.rows == old(store.rows) - {id}
    {
      var rule := store.GetByID(id);
      if rule.None? {
        assert store.rows - {id} == store.rows;
        return NotFound;
      }
      DeleteTouches(store.rows, id);
      InvalidationKeepsCoherent(store.rows, store.rows - {id}, cache.entries, rule.value.userId);
      r := store.Delete(id);
      cache.InvalidateUser(rule.value.userId);
    }
  }

  // ---------------------------------------------------------------------------
  // Concurrent readers and writers that bypass the cache
  // ---------------------------------------------------------------------------

  /** A database write by anyone; an invalidation or removal of an entry; the two halves of a miss,
      query and `Set`; a hit. */
  datatype Step =
    | Write(rows: Rows, now: int)
    | Invalidate(user: string, now: int)
    | Load(reader: nat, user: string, answer: seq<Rule>, now: int)
    | Store(reader: nat, now: int)
    | Hit(user: string, now: int)

  datatype Loaded = Loaded(user: string, rules: seq<Rule>)

  datatype State = State(rows: Rows, entries: map<string, Entry>, loads: map<nat, Loaded>)

  ghost predicate Enabled(s: State, step: Step) {
    match step
    case Write(_, _) => true
    case Invalidate(_, _) => true
    case Load(reader, user, answer, _) => reader !in s.loads && IsAnswer(s.rows, user, answer)
    case Store(reader, _) => reader in s.loads
    case Hit(user, now) => user in s.entries && now <= s.entries[user].expiresAt
  }

  function Next(s: State, ttl: int, step: Step): State {
    match step
    case Write(rows, _) => s.(rows := rows)
    case Invalidate(user, _) => s.(entries := s.entries - {user})
    case Load(reader, user, answer, _) => s.(loads := s.loads[reader := Loaded(user, answer)])
    case Store(reader, now) =>
      if reader !in s.loads then s
      else s.(entries := s.entries[s.loads[reader].user := Entry(s.loads[reader].rules, now + ttl)],
              loads := s.loads - {reader})
    case Hit(_, _) => s
  }

  function Run(ttl: int, steps: seq<Step>): State {
    if steps == [] then State(map[], map[], map[])
    else Next(Run(ttl, steps[..|steps| - 1]), ttl, steps[|steps| - 1])
  }

  ghost predicate IsTrace(ttl: int, steps: seq<Step>) {
    steps == [] ||
    (IsTrace(ttl, steps[..|steps| - 1]) && Enabled(Run(ttl, steps[..|steps| - 1]), steps[|steps| - 1]))
  }

  /** What each step does: a write replaces the rows, an invalidation takes one list away, a load is kept by its
      reader alone, and its `Set` puts the list it loaded there for one TTL. */
  lemma StepEffect(s: State, ttl: int, step: Step, user: string)
    requires Enabled(s, step)
    ensures Next(s, ttl, step).rows == if step.Write? then step.rows else s.rows
    ensures user in Next(s, ttl, step).entries <==>
      (step.Store? && s.loads[step.reader].user == user) || (user in s.entries && step != Invalidate(user, step.now))
    ensures user in Next(s, ttl, step).entries ==>
      Next(s, ttl, step).entries[user] ==
        if step.Store? && s.loads[step.reader].user == user
        then Entry(s.loads[step.reader].rules, step.now + ttl) else s.entries[user]
    ensures Next(s, ttl, step).loads ==
      if step.Load? then s.loads[step.reader := Loaded(step.user, step.answer)]
      else if step.Store? then s.loads - {step.reader} else s.loads
  {
  }

  /** What a reader holds was the answer over the database at its load, step i. */
  ghost predicate LoadedAt(ttl: int, steps: seq<Step>, i: int, reader: nat, l: Loaded) {
    && 0 <= i < |steps| && steps[i].Load? && steps[i].reader == reader
    && steps[i].user == l.user && steps[i].answer == l.rules
    && IsAnswer(Run(ttl, steps[..i]).rows, l.user, l.rules)
    && forall k :: i < k < |steps| ==> steps[k] != Store(reader, steps[k].now)
  }

  lemma LoadedLater(ttl: int, steps: seq<Step>, step: Step, i: int, reader: nat, l: Loaded)
    requires LoadedAt(ttl, steps, i, reader, l) && !(step.Store? && step.reader == reader)
    ensures LoadedAt(ttl, steps + [step], i, reader, l)
  {
    assert (steps + [step])[..i] == steps[..i];
  }

  lemma {:induction false} ReaderLoaded(ttl: int, steps: seq<Step>, reader: nat) returns (i: int)
    requires IsTrace(ttl, steps) && reader in Run(ttl, steps).loads
    ensures LoadedAt(ttl, steps, i, reader, Run(ttl, steps).loads[reader])
  {
    var n := |steps| - 1;
    var init, step := steps[..n], steps[n];
    if step.Load? && step.reader == reader {
      i := n;
    } else {
      i := ReaderLoaded(ttl, init, reader);
      LoadedLater(ttl, init, step, i, reader, Run(ttl, steps).loads[reader]);
      assert steps == init + [step];
    }
  }

  /** Step j stores what the same reader loaded at step i. */
  ghost predicate SameReader(steps: seq<Step>, i: int, j: int)
    requires 0 <= i < j < |steps|
  {
    steps[i].Load? && steps[j].Store? && steps[i].reader == steps[j].reader &&
    forall k :: i < k < j ==> steps[k] != Store(steps[i].reader, steps[k].now)
  }

  /** Where a cached list comes from: the query answered it at step i, and the same reader stored it
      at step j. */
  ghost predicate ServedFrom(ttl: int, steps: seq<Step>, i: int, j: int, user: string, e: Entry) {
    && 0 <= i < j < |steps| && SameReader(steps, i, j)
    && steps[i].user == user && steps[i].answer == e.rules
    && IsAnswer(Run(ttl, steps[..i]).rows, user, e.rules)
    && e.expiresAt == steps[j].now + ttl
  }

  lemma ServedLater(ttl: int, steps: seq<Step>, step: Step, i: int, j: int, user: string, e: Entry)
    requires ServedFrom(ttl, steps, i, j, user, e)
    ensures ServedFrom(ttl, steps + [step], i, j, user, e)
  {
    assert (steps + [step])[..i] == steps[..i];
  }

  lemma {:induction false} EntryServed(ttl: int, steps: seq<Step>, user: string) returns (i: int, j: int)
    requires IsTrace(ttl, steps) && user in Run(ttl, steps).entries
    ensures ServedFrom(ttl, steps, i, j, user, Run(ttl, steps).entries[user])
  {
    var n := |steps| - 1;
    var init, step := steps[..n], steps[n];
    assert steps == init + [step];
    if step.Store? && Run(ttl, init).loads[step.reader].user == user {
      j := n;
      i := ReaderLoaded(ttl, init, step.reader);
      assert steps[..i] == init[..i];
    } else {
      i, j := EntryServed(ttl, init, user);
      ServedLater(ttl, init, step, i, j, user, Run(ttl, init).entries[user]);
    }
  }

  /** Whatever bypasses the cache, a hit at time t serves the answer over the database as it was at some
      load before, and that load is no older than the TTL plus the time between its query and its `Set`. */
  lemma HitIsRecentSnapshot(ttl: int, steps: seq<Step>, latency: int) returns (i: int)
    requires IsTrace(ttl, steps) && steps != [] && steps[|steps| - 1].Hit?
    requires forall i, j :: 0 <= i < j < |steps| && SameReader(steps, i, j) ==> steps[j].now - steps[i].now <= latency
    ensures var hit := steps[|steps| - 1];
      && 0 <= i < |steps| - 1
      && IsAnswer(Run(ttl, steps[..i]).rows, hit.user, Run(ttl, steps[..|steps| - 1]).entries[hit.user].rules)
      && hit.now - steps[i].now <= ttl + latency
  {
    var n := |steps| - 1;
    var before, hit := steps[..n], steps[n];
    var j;
    i, j := EntryServed(ttl, before, hit.user);
    assert before[..i] == steps[..i];
    assert SameReader(steps, i, j) by {
      assert steps[i] == before[i] && steps[j] == before[j];
      forall k | i < k < j ensures steps[k] != Store(steps[i].reader, steps[k].now) {
        assert steps[k] == before[k];
      }
    }
  }

  /** The user has the same active rules in both tables. */
  ghost predicate SameActive(a: Rows, b: Rows, user: string) {
    forall r: Rule :: ActiveRow(a, user, r) <==> ActiveRow(b, user, r)
  }

  /** An answer over one table is an answer over another if and only if the active rules are the same. */
  lemma AnswerCarriesOverIff(a: Rows, b: Rows, user: string, rules: seq<Rule>)
    requires IsAnswer(a, user, rules)
    ensures IsAnswer(b, user, rules) <==> SameActive(a, b, user)
  {
    if SameActive(a, b, user) {
      SameAnswer(a, b, user, rules);
    }
    if IsAnswer(b, user, rules) {
      forall r: Rule ensures ActiveRow(a, user, r) <==> ActiveRow(b, user, r) {
        assert r in rules <==> ActiveRow(a, user, r);
        assert r in rules <==> ActiveRow(b, user, r);
      }
    }
  }

  /** When a cached list is right, over every trace: it was loaded at step i, and it is an answer now if
      and only if the user's active rules now are those of step i, whatever was invalidated in between. */
  lemma EntryRightIff(ttl: int, steps: seq<Step>, user: string) returns (i: int, j: int)
    requires IsTrace(ttl, steps) && user in Run(ttl, steps).entries
    ensures ServedFrom(ttl, steps, i, j, user, Run(ttl, steps).entries[user])
    ensures IsAnswer(Run(ttl, steps).rows, user, Run(ttl, steps).entries[user].rules) <==>
      SameActive(Run(ttl, steps[..i]).rows, Run(ttl, steps).rows, user)
  {
    i, j := EntryServed(ttl, steps, user);
    AnswerCarriesOverIff(Run(ttl, steps[..i]).rows, Run(ttl, steps).rows, user, Run(ttl, steps).entries[user].rules);
  }

  /** A `Set` leaves a wrong list, an invalidation before it or not, exactly when the active rules of its
      user have changed since its load. */
  lemma SetHarmfulIff(ttl: int, steps: seq<Step>, put: Step) returns (i: int)
    requires IsTrace(ttl, steps) && put.Store? && Enabled(Run(ttl, steps), put)
    ensures var s := Run(ttl, steps);
      var l := s.loads[put.reader];
      var t := Next(s, ttl, put);
      && LoadedAt(ttl, steps, i, put.reader, l) && l.user in t.entries
      && (!IsAnswer(t.rows, l.user, t.entries[l.user].rules) <==>
          !SameActive(Run(ttl, steps[..i]).rows, s.rows, l.user))
  {
    i := ReaderLoaded(ttl, steps, put.reader);
    var l := Run(ttl, steps).loads[put.reader];
    AnswerCarriesOverIff(Run(ttl, steps[..i]).rows, Run(ttl, steps).rows, l.user, l.rules);
  }

  /** And then some write since the load changed them. */
  lemma {:induction false} ChangedByAWrite(ttl: int, steps: seq<Step>, i: int, user: string) returns (k: int)
    requires 0 <= i <= |steps| && !SameActive(Run(ttl, steps[..i]).rows, Run(ttl, steps).rows, user)
    ensures i <= k < |steps| && steps[k].Write?
    ensures !SameActive(Run(ttl, steps[..k]).rows, Run(ttl, steps[..k + 1]).rows, user)
  {
    var n := |steps| - 1;
    assert steps[..|steps|] == steps;
    var init := steps[..n];
    assert init[..i] == steps[..i];
    if SameActive(Run(ttl, init).rows, Run(ttl, steps).rows, user) {
      k := ChangedByAWrite(ttl, init, i, user);
      assert init[..k] == steps[..k] && init[..k + 1] == steps[..k + 1];
    } else {
      k := n;
    }
  }

  lemma RunStep(ttl: int, steps: seq<Step>, step: Step)
    ensures Run(ttl, steps + [step]) == Next(Run(ttl, steps), ttl, step)
    ensures IsTrace(ttl, steps + [step]) <==> IsTrace(ttl, steps) && Enabled(Run(ttl, steps), step)
  {
    assert (steps + [step])[..|steps|] == steps;
  }

  /** Such a run: a write and its invalidation between a query and its `Set`. */
  lemma RaceLeavesStaleEntry(ttl: int, r: Rule) returns (steps: seq<Step>)
    requires r.status == "active"
    ensures IsTrace(ttl, steps) && |steps| == 5
    ensures steps[2].Write? && steps[3] == Invalidate(r.userId, 3) && SameReader(steps, 1, 4)
    ensures var s := Run(ttl, steps);
      r.userId in s.entries && !IsAnswer(s.rows, r.userId, s.entries[r.userId].rules)
  {
    var one: seq<Step> := [Write(map[r.id := r], 0)];
    assert one[..0] == [];
    assert Run(ttl, one) == State(map[r.id := r], map[], map[]);
    assert IsAnswer(map[r.id := r], r.userId, [r]);
    RunStep(ttl, one, Load(0, r.userId, [r], 1));
    var two := one + [Load(0, r.userId, [r], 1)];
    RunStep(ttl, two, Write(map[], 2));
    var three := two + [Write(map[], 2)];
    RunStep(ttl, three, Invalidate(r.userId, 3));
    var four := three + [Invalidate(r.userId, 3)];
    RunStep(ttl, four, Store(0, 4));
    steps := four + [Store(0, 4)];
    assert r in [r] && !ActiveRow(map[], r.userId, r);
  }
}
