/** The table auto_handle_rules: its rows, its constraints (classification/migrations) and the statements of
    classification/internal/auto/store.go on it. */
module RuleTables {
  import opened Collections
  import opened Predicates

  datatype Rule = Rule(
    id: string, userId: string, name: string, condition: RulePredicate, actionType: string, actionConfig: string,
    threshold: real, status: string, stagedAt: Option<int>, activatedAt: Option<int>, revokedAt: Option<int>,
    usageCount: int, createdAt: int)

  type Rows = map<string, Rule>

  datatype Outcome = Done | NotFound | Duplicate | Rejected | InvalidStatus

  /** The enumerated column types and the check constraints of the table. */
  predicate Storable(r: Rule) {
    && r.actionType in ["reply_template", "forward", "calendar_accept", "delete", "extract_notify"]
    && 0.0 <= r.threshold <= 1.0
    && (r.status == "staged" || r.status == "active" || r.status == "revoked")
    && (r.status == "staged" ==> r.stagedAt.Some?)
    && (r.status == "active" ==> r.activatedAt.Some?)
    && (r.status == "revoked" ==> r.revokedAt.Some?)
  }

  datatype Constraint =
    | ActionTypeKnown | ThresholdInRange | StatusKnown | StagedHasTime | ActiveHasTime | RevokedHasTime

  predicate Violates(r: Rule, c: Constraint) {
    match c
    case ActionTypeKnown =>
      r.actionType !in {"reply_template", "forward", "calendar_accept", "delete", "extract_notify"}
    case ThresholdInRange => r.threshold < 0.0 || r.threshold > 1.0
    case StatusKnown => r.status !in {"staged", "active", "revoked"}
    case StagedHasTime => r.status == "staged" && r.stagedAt == None
    case ActiveHasTime => r.status == "active" && r.activatedAt == None
    case RevokedHasTime => r.status == "revoked" && r.revokedAt == None
  }

  /** A row can be stored exactly when it violates no constraint. */
  lemma StorableIff(r: Rule)
    ensures Storable(r) <==> forall c :: !Violates(r, c)
  {
    if forall c :: !Violates(r, c) {
      assert !Violates(r, ActionTypeKnown) && !Violates(r, ThresholdInRange) && !Violates(r, StatusKnown);
      assert !Violates(r, StagedHasTime) && !Violates(r, ActiveHasTime) && !Violates(r, RevokedHasTime);
    }
  }

  ghost predicate ValidRows(rows: Rows) {
    forall k :: k in rows ==> rows[k].id == k && Storable(rows[k])
  }

  /** What `Create` fills in before the insert. */
  function Completed(r: Rule, newId: string, now: int): Rule {
    r.(id := if r.id == "" then newId else r.id, status := if r.status == "" then "staged" else r.status,
       threshold := if r.threshold == 0.0 then 0.92 else r.threshold, createdAt := now)
  }

  /** Constraints first, then the primary key, then the reference to the user. */
  function CreateOutcome(rows: Rows, created: Rule, userExists: bool): Outcome {
    if !Storable(created) then Rejected
    else if created.id in rows then Duplicate
    else if userExists then Done else Rejected
  }

  function Redefined(row: Rule, r: Rule): Rule {
    row.(name := r.name, condition := r.condition, actionType := r.actionType, actionConfig := r.actionConfig,
         threshold := r.threshold)
  }

  /** The status update writes all three time stamps, two of them NULL. */
  function WithStatus(row: Rule, status: string, now: int): Rule {
    row.(status := status, stagedAt := if status == "staged" then Some(now) else None,
         activatedAt := if status == "active" then Some(now) else None,
         revokedAt := if status == "revoked" then Some(now) else None)
  }

  function Used(row: Rule): Rule {
    row.(usageCount := row.usageCount + 1)
  }

  class RuleStore {
    var rows: Rows

    ghost predicate Valid() reads this {
      ValidRows(rows)
    }

    constructor ()
      ensures Valid() && rows == map[]
    {
      rows := map[];
    }

    /** `userExists` says whether the user the rule refers to is in the users table. */
    method Create(rule: Rule, newId: string, now: int, userExists: bool) returns (r: Outcome, created: Rule)
      requires Valid()
      modifies this
      ensures Valid()
      ensures created == Completed(rule, newId, now)
      ensures created == Rule(
        if rule.id == "" then newId else rule.id, rule.userId, rule.name, rule.condition, rule.actionType,
        rule.actionConfig, if rule.threshold == 0.0 then 0.92 else rule.threshold,
        if rule.status == "" then "staged" else rule.status, rule.stagedAt, rule.activatedAt, rule.revokedAt,
        rule.usageCount, now)
      ensures r == CreateOutcome(old(rows), created, userExists)
      ensures r == Done <==> Storable(created) && created.id !in old(rows) && userExists
      ensures r == Duplicate <==> Storable(created) && created.id in old(rows)
      ensures r == Done || r == Duplicate || r == Rejected
      ensures rows == if r == Done then old(rows)[created.id := created] else old(rows)
    {
      created := rule;
      if created.id == "" {
        created := created.(id := newId);
      }
      if created.status == "" {
        created := created.(status := "staged");
      }
      if created.threshold == 0.0 {
        created := created.(threshold := 0.92);
      }
      created := created.(createdAt := now);
      if !Storable(created) {
        return Rejected, created;
      }
      if created.id in rows {
        return Duplicate, created;
      }
      if !userExists {
        return Rejected, created;
      }
      rows := rows[created.id := created];
      r := Done;
    }

    method GetByID(id: string) returns (rule: Option<Rule>)
      ensures rule == if id in rows then Some(rows[id]) else None
    {
      rule := if id in rows then Some(rows[id]) else None;
    }

    method Update(rule: Rule) returns (r: Outcome)
      requires Valid()
      modifies this
      ensures Valid()
      ensures r == if rule.id !in old(rows) then NotFound
        else if Storable(Redefined(old(rows)[rule.id], rule)) then Done else Rejected
      ensures rows == if r == Done then old(rows)[rule.id := Redefined(old(rows)[rule.id], rule)] else old(rows)
      ensures r == Done ==>
        var row := old(rows)[rule.id];
        rows[rule.id] == Rule(row.id, row.userId, rule.name, rule.condition, rule.actionType, rule.actionConfig,
                              rule.threshold, row.status, row.stagedAt, row.activatedAt, row.revokedAt,
                              row.usageCount, row.createdAt)
    {
      if rule.id !in rows {
        return NotFound;
      }
      var row := rows[rule.id].(name := rule.name, condition := rule.condition, actionType := rule.actionType,
        actionConfig := rule.actionConfig, threshold := rule.threshold);
      if !Storable(row) {
        return Rejected;
      }
      rows := rows[rule.id := row];
      r := Done;
    }

    method UpdateStatus(id: string, status: string, now: int) returns (r: Outcome)
      requires Valid()
      modifies this
      ensures Valid()
      ensures r == if status !in ["staged", "active", "revoked"] then InvalidStatus
        else if id in old(rows) then Done else NotFound
      ensures rows == if r == Done then old(rows)[id := WithStatus(old(rows)[id], status, now)] else old(rows)
      ensures r == Done ==>
        var row := old(rows)[id];
        rows[id] == Rule(row.id, row.userId, row.name, row.condition, row.actionType, row.actionConfig, row.threshold,
                         status, if status == "staged" then Some(now) else None,
                         if status == "active" then Some(now) else None,
                         if status == "revoked" then Some(now) else None, row.usageCount, row.createdAt)
    {
      var stagedAt, activatedAt, revokedAt := None, None, None;
      if status == "staged" {
        stagedAt := Some(now);
      } else if status == "active" {
        activatedAt := Some(now);
      } else if status == "revoked" {
        revokedAt := Some(now);
      } else {
        return InvalidStatus;
      }
      if id !in rows {
        return NotFound;
      }
      rows := rows[id := rows[id].(status := status, stagedAt := stagedAt, activatedAt := activatedAt,
                                   revokedAt := revokedAt)];
      r := Done;
    }

    method Delete(id: string) returns (r: Outcome)
      requires Valid()
      modifies this
      ensures Valid()
      ensures r == if id in old(rows) then Done else NotFound
      ensures rows == old(rows) - {id}
    {
      r := if id in rows then Done else NotFound;
      rows := rows - {id};
    }

    /** No error when the rule is missing. */
    method IncrementUsage(id: string)
      requires Valid()
      modifies this
      ensures Valid()
      ensures rows == if id in old(rows) then old(rows)[id := Used(old(rows)[id])] else old(rows)
      ensures id in old(rows) ==> rows[id] == old(rows)[id].(usageCount := old(rows)[id].usageCount + 1)
    {
      if id in rows {
        rows := rows[id := rows[id].(usageCount := rows[id].usageCount + 1)];
      }
    }
  }

  // ---------------------------------------------------------------------------
  // SELECT ... WHERE user_id = user AND status = 'active' ORDER BY usage_count DESC, created_at DESC
  // ---------------------------------------------------------------------------

  predicate ActiveRow(rows: Rows, user: string, r: Rule) {
    r.id in rows && rows[r.id] == r && r.userId == user && r.status == "active"
  }

  predicate NotAfter(a: Rule, b: Rule) {
    a.usageCount > b.usageCount || (a.usageCount == b.usageCount && a.createdAt >= b.createdAt)
  }

  ghost predicate InOrder(rules: seq<Rule>) {
    forall i, j :: 0 <= i < j < |rules| ==> NotAfter(rules[i], rules[j])
  }

  ghost predicate HoldsActive(rows: Rows, user: string, rules: seq<Rule>) {
    forall r :: r in rules <==> ActiveRow(rows, user, r)
  }

  /** An answer of the query: every active row once, in order; rows that tie may come either way. */
  ghost predicate IsAnswer(rows: Rows, user: string, rules: seq<Rule>) {
    Distinct(rules) && HoldsActive(rows, user, rules) && InOrder(rules)
  }

  /** What an answer is, told from the rows: the user's active rules, each once, the most used first and
      the youngest first among equally used ones. */
  lemma AnswerMeans(rows: Rows, user: string, rules: seq<Rule>)
    ensures IsAnswer(rows, user, rules) <==>
      (Distinct(rules)
       && (forall r :: r in rules <==> r.id in rows && rows[r.id] == r && r.userId == user && r.status == "active")
       && (forall i, j :: 0 <= i < j < |rules| ==> rules[i].usageCount >= rules[j].usageCount)
       && (forall i, j :: 0 <= i < j < |rules| && rules[i].usageCount == rules[j].usageCount ==>
             rules[i].createdAt >= rules[j].createdAt))
  {
    if InOrder(rules) {
      forall i, j | 0 <= i < j < |rules| ensures rules[i].usageCount >= rules[j].usageCount {
        assert NotAfter(rules[i], rules[j]);
      }
    }
    if HoldsActive(rows, user, rules) {
      forall r ensures r in rules <==>
        r.id in rows && rows[r.id] == r && r.userId == user && r.status == "active" {
        assert r in rules <==> ActiveRow(rows, user, r);
      }
    }
  }

  function Place(rules: seq<Rule>, r: Rule): seq<Rule> {
    if rules == [] || NotAfter(r, rules[0]) then [r] + rules
    else [rules[0]] + Place(rules[1..], r)
  }

  lemma {:induction false} PlaceMember(rules: seq<Rule>, r: Rule, x: Rule)
    ensures x in Place(rules, r) <==> x in rules || x == r
  {
    if rules != [] && !NotAfter(r, rules[0]) {
      PlaceMember(rules[1..], r, x);
      assert rules == [rules[0]] + rules[1..];
    }
  }

  lemma ConsDistinct(x: Rule, rules: seq<Rule>)
    requires Distinct(rules) && x !in rules
    ensures Distinct([x] + rules)
  {
  }

  lemma {:induction false} PlaceDistinct(rules: seq<Rule>, r: Rule)
    requires Distinct(rules) && r !in rules
    ensures Distinct(Place(rules, r))
  {
    if rules == [] || NotAfter(r, rules[0]) {
      ConsDistinct(r, rules);
    } else {
      PlaceDistinct(rules[1..], r);
      PlaceMember(rules[1..], r, rules[0]);
      ConsDistinct(rules[0], Place(rules[1..], r));
    }
  }

  lemma ConsInOrder(x: Rule, rules: seq<Rule>)
    requires InOrder(rules) && forall y :: y in rules ==> NotAfter(x, y)
    ensures InOrder([x] + rules)
  {
  }

  lemma {:induction false} PlaceInOrder(rules: seq<Rule>, r: Rule)
    requires InOrder(rules)
    ensures InOrder(Place(rules, r))
  {
    if rules == [] || NotAfter(r, rules[0]) {
      ConsInOrder(r, rules);
    } else {
      PlaceInOrder(rules[1..], r);
      forall y | y in Place(rules[1..], r) ensures NotAfter(rules[0], y) {
        PlaceMember(rules[1..], r, y);
      }
      ConsInOrder(rules[0], Place(rules[1..], r));
    }
  }

  /** The query always has an answer. */
  lemma {:induction false} AnswerExists(rows: Rows, user: string) returns (rules: seq<Rule>)
    requires ValidRows(rows)
    ensures IsAnswer(rows, user, rules)
    decreases |rows|
  {
    if rows == map[] {
      rules := [];
    } else {
      var k :| k in rows;
      var rest := rows - {k};
      assert rest.Keys == rows.Keys - {k};
      var others := AnswerExists(rest, user);
      if rows[k].userId == user && rows[k].status == "active" {
        rules := Place(others, rows[k]);
        PlaceDistinct(others, rows[k]);
        PlaceInOrder(others, rows[k]);
        forall r ensures r in rules <==> ActiveRow(rows, user, r) {
          PlaceMember(others, rows[k], r);
          assert r in others <==> ActiveRow(rest, user, r);
        }
      } else {
        rules := others;
        forall r ensures r in rules <==> ActiveRow(rows, user, r) {
          assert r in others <==> ActiveRow(rest, user, r);
        }
      }
    }
  }

  lemma SameAnswer(a: Rows, b: Rows, user: string, rules: seq<Rule>)
    requires IsAnswer(a, user, rules)
    requires forall r :: ActiveRow(a, user, r) <==> ActiveRow(b, user, r)
    ensures IsAnswer(b, user, rules)
  {
  }
}
