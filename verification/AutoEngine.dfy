/** The auto-handle pipeline: active rules first, then the language model restricted to the names of those
    rules (classification/internal/auto/engine.go, classification/internal/auto/llm_fallback.go). */
module AutoEngines {
  import opened Collections
  import opened Predicates
  import opened RuleTables
  import opened RuleCaches

  const CONFIDENCE_FLOOR: real := 0.92

  /** The model's reply after JSON decoding, and what `Match` makes of it. */
  datatype Answer = Answer(name: string, confidence: real)

  datatype Email = Email(rawEmailId: string, userId: string, threadId: string)

  datatype Result = Result(rawEmailId: string, userId: string, threadId: string, confidence: real,
                           ruleId: string, llmMatched: bool)

  // ---------------------------------------------------------------------------
  // LLMFallback.Match
  // ---------------------------------------------------------------------------

  ghost predicate Known(x: Text, names: seq<string>, name: string) {
    exists i :: 0 <= i < |names| && x.equalFold(names[i], name)
  }

  method StringSliceContains(x: Text, names: seq<string>, name: string) returns (found: bool)
    ensures found <==> Known(x, names, name)
  {
    for i := 0 to |names|
      invariant forall j :: 0 <= j < i ==> !x.equalFold(names[j], name)
    {
      if x.equalFold(names[i], name) {
        return true;
      }
    }
    found := false;
  }

  /** `reply` is the decoded reply, None when the call or the decoding failed. A name comes back
      exactly when it was replied with a confidence above the floor and names a known rule. */
  method Match(x: Text, names: seq<string>, reply: Option<Answer>) returns (r: Option<Answer>)
    ensures r.None? <==> names != [] && reply.None?
    ensures r.Some? && r.value.name != "none" ==>
      reply.Some? && reply.value.confidence >= 0.92 && Known(x, names, reply.value.name)
    ensures (reply.Some? && reply.value.confidence >= 0.92 && Known(x, names, reply.value.name)) ==>
      r == Some(Answer(reply.value.name, if reply.value.confidence > 1.0 then 1.0 else reply.value.confidence))
  {
    if |names| == 0 {
      return Some(Answer("none", 0.0));
    }
    if reply.None? {
      return None;
    }
    var resp := reply.value;
    if resp.confidence < 0.0 {
      resp := resp.(confidence := 0.0);
    }
    if resp.confidence > 1.0 {
      resp := resp.(confidence := 1.0);
    }
    if resp.confidence < CONFIDENCE_FLOOR {
      resp := Answer("none", 0.0);
    }
    if resp.name != "none" {
      var known := StringSliceContains(x, names, resp.name);
      if !known {
        resp := Answer("none", 0.0);
      }
    }
    r := Some(resp);
  }

  // ---------------------------------------------------------------------------
  // Which rule fires
  // ---------------------------------------------------------------------------

  ghost predicate Matches(x: Text, rule: Rule, attrs: Attributes, r: Verdict) {
    AutoPredicateMeans(x, rule.condition, attrs, r)
  }

  /** A threshold of zero means the floor. */
  function Confidence(rule: Rule): real {
    if rule.threshold == 0.0 then CONFIDENCE_FLOOR else rule.threshold
  }

  /** The rule's predicate holds, without an error, and its threshold is zero or reaches 0.92. */
  ghost predicate Qualifies(x: Text, rule: Rule, attrs: Attributes) {
    Matches(x, rule, attrs, Ok(true)) && (rule.threshold == 0.0 || rule.threshold >= 0.92)
  }

  lemma VerdictSettles(x: Text, rule: Rule, attrs: Attributes, r: Verdict)
    requires Matches(x, rule, attrs, r)
    ensures Matches(x, rule, attrs, Ok(true)) <==> r == Ok(true)
  {
    AutoMeaningIff(x, rule.condition, attrs, r);
    AutoMeaningIff(x, rule.condition, attrs, Ok(true));
    if Matches(x, rule, attrs, Ok(true)) {
      var all := AutoVerdicts(x, rule.condition.allOf, attrs);
      DecidesUniquely(all, AutoVerdicts(x, rule.condition.anyOf, attrs), r, Ok(true));
    }
  }

  ghost predicate FirstQualifying(x: Text, rules: seq<Rule>, attrs: Attributes, i: int) {
    0 <= i < |rules| && Qualifies(x, rules[i], attrs) && NoneQualifies(x, rules[..i], attrs)
  }

  ghost predicate NoneQualifies(x: Text, rules: seq<Rule>, attrs: Attributes) {
    forall i :: 0 <= i < |rules| ==> !Qualifies(x, rules[i], attrs)
  }

  function RuleName(r: Rule): string { r.name }

  ghost predicate FirstNamed(x: Text, rules: seq<Rule>, name: string, i: int) {
    0 <= i < |rules| && x.equalFold(rules[i].name, name) && forall j :: 0 <= j < i ==> !x.equalFold(rules[j].name, name)
  }

  /** What an auto result promises: it is about this e-mail, names one of the loaded active rules, and
      its confidence is at least the floor. */
  ghost predicate Sound(email: Email, rules: seq<Rule>, r: Result) {
    && r.rawEmailId == email.rawEmailId && r.userId == email.userId && r.threadId == email.threadId
    && 0.92 <= r.confidence <= 1.0
    && exists i :: 0 <= i < |rules| && rules[i].id == r.ruleId
  }

  /** What the language model's reply leads to when no rule qualifies: the first rule it names fires, with its
      confidence, if that is at least 0.92; any other reply leads nowhere. */
  ghost predicate FallsBack(x: Text, email: Email, rules: seq<Rule>, reply: Option<Answer>, r: Option<Result>) {
    if reply.Some? && reply.value.confidence >= 0.92 && reply.value.name != "none" &&
       exists i :: FirstNamed(x, rules, reply.value.name, i)
    then
      exists i :: FirstNamed(x, rules, reply.value.name, i) &&
        r == Some(Result(email.rawEmailId, email.userId, email.threadId,
                         if reply.value.confidence > 1.0 then 1.0 else reply.value.confidence, rules[i].id, true))
    else r == None
  }

  lemma {:induction false} FirstNamedExists(x: Text, rules: seq<Rule>, name: string, n: int) returns (i: int)
    requires 0 <= n < |rules| && x.equalFold(rules[n].name, name)
    ensures FirstNamed(x, rules, name, i)
    decreases n
  {
    if j :| 0 <= j < n && x.equalFold(rules[j].name, name) {
      i := FirstNamedExists(x, rules, name, j);
    } else {
      i := n;
    }
  }

  lemma NamedIsKnown(x: Text, rules: seq<Rule>, name: string)
    ensures Known(x, Ids(RuleName, rules), name) <==> exists i :: FirstNamed(x, rules, name, i)
  {
    forall i | 0 <= i < |rules| ensures Ids(RuleName, rules)[i] == rules[i].name {
      IdsAt(RuleName, rules, i);
    }
    if Known(x, Ids(RuleName, rules), name) {
      var n :| 0 <= n < |rules| && x.equalFold(Ids(RuleName, rules)[n], name);
      var i := FirstNamedExists(x, rules, name, n);
    }
  }

  /** The table once a use of the rule is counted. */
  function CountedUse(rows: Rows, id: string): Rows {
    if id in rows then rows[id := Used(rows[id])] else rows
  }

  class Engine {
    const store: CachedStore
    const evaluator: PredicateEvaluator
    /** Ids of the rules whose action was executed, created from a reply, or sent back to staging. */
    var executed: seq<string>
    var created: seq<string>
    var staged: seq<string>

    ghost predicate Valid() reads evaluator, store.store, store.cache {
      store.Valid() && evaluator.Valid()
    }

    constructor (store: CachedStore, evaluator: PredicateEvaluator)
      requires store.Valid() && evaluator.Valid()
      ensures Valid() && this.store == store && this.evaluator == evaluator
      ensures executed == [] && created == [] && staged == []
    {
      this.store, this.evaluator := store, evaluator;
      executed, created, staged := [], [], [];
    }

    /** One turn of the rule loop: an error and a low threshold pass the rule over. */
    method Try(rule: Rule, attrs: Attributes) returns (fires: bool)
      requires evaluator.Valid()
      modifies evaluator
      ensures evaluator.Valid()
      ensures fires <==> Qualifies(evaluator.text, rule, attrs)
    {
      var verdict := evaluator.Evaluate(rule.condition, attrs);
      VerdictSettles(evaluator.text, rule, attrs, verdict);
      if verdict != Ok(true) {
        return false;
      }
      var confidence := rule.threshold;
      if confidence == 0.0 {
        confidence := CONFIDENCE_FLOOR;
      }
      fires := !(confidence < CONFIDENCE_FLOOR);
    }

    method FirstMatch(rules: seq<Rule>, attrs: Attributes) returns (i: nat)
      requires evaluator.Valid()
      modifies evaluator
      ensures evaluator.Valid() && i <= |rules|
      ensures if i < |rules| then FirstQualifying(evaluator.text, rules, attrs, i)
              else NoneQualifies(evaluator.text, rules, attrs)
    {
      i := 0;
      while i < |rules|
        invariant evaluator.Valid() && i <= |rules|
        invariant forall j :: 0 <= j < i ==> !Qualifies(evaluator.text, rules[j], attrs)
      {
        var fires := Try(rules[i], attrs);
        if fires {
          return;
        }
        i := i + 1;
      }
    }

    /** Executes the action, whose failure is only logged, and counts the use. */
    method Fire(rule: Rule)
      requires store.Valid()
      modifies this`executed, store.store, store.cache
      ensures store.Valid() && executed == old(executed) + [rule.id]
      ensures store.store.rows == CountedUse(old(store.store.rows), rule.id)
    {
      executed := executed + [rule.id];
      var ignored := store.IncrementUsage(rule.id);
    }

    /** The staged rule an unknown name creates, unless the table refuses it. */
    method CreateFromReply(email: Email, name: string, condition: RulePredicate, newId: string, now: int,
                           userExists: bool)
      returns (rule: Option<Rule>)
      requires store.Valid()
      modifies this`created, store.store, store.cache
      ensures store.Valid()
      ensures rule.None? ==> created == old(created) && store.store.rows == old(store.store.rows)
      ensures rule.Some? ==>
        && created == old(created) + [newId] && newId !in old(store.store.rows) && rule.value.id == newId
        && store.store.rows == old(store.store.rows)[newId :=
             Rule(newId, email.userId, name, condition, "extract_notify",
                  "{\"notification_title\": \"Auto-handled email\"}", 0.92, "staged", Some(now), None, None, 0, now)]
    {
      var draft := Rule("", email.userId, name, condition, "extract_notify",
        "{\"notification_title\": \"Auto-handled email\"}", CONFIDENCE_FLOOR, "staged", Some(now), None, None, 0, now);
      var outcome := store.Create(draft, newId, now, userExists);
      if outcome != Done {
        return None;
      }
      created := created + [newId];
      rule := Some(draft.(id := newId));
    }

    /** What `tryLLMFallback` does with any answer at all: only an unknown name makes it create a rule, and
        only a rule that is neither active nor staged is staged again. */
    method UseAnswer(email: Email, rules: seq<Rule>, answer: Answer, condition: RulePredicate, newId: string, now: int,
                     userExists: bool)
      returns (r: Option<Result>)
      requires Valid()
      modifies this, store.store, store.cache
      ensures Valid()
      ensures r.Some? ==> answer.name != "none" && answer.confidence >= 0.92
      ensures (Known(evaluator.text, Ids(RuleName, rules), answer.name) || answer.name == "none") ==>
        created == old(created)
      ensures (forall i :: 0 <= i < |rules| ==> rules[i].status == "active" || rules[i].status == "staged") ==>
        staged == old(staged)
      ensures (answer.name != "none" && answer.confidence >= 0.92 &&
               Known(evaluator.text, Ids(RuleName, rules), answer.name)) ==>
        (r.Some? &&
         (exists i :: FirstNamed(evaluator.text, rules, answer.name, i) && executed == old(executed) + [rules[i].id] &&
            r.value == Result(email.rawEmailId, email.userId, email.threadId, answer.confidence, rules[i].id, true)))
      ensures r.None? ==>
        executed == old(executed) && created == old(created) && staged == old(staged) &&
        store.store.rows == old(store.store.rows)
      ensures created != old(created) ==>
        created == old(created) + [newId] && newId !in old(store.store.rows) && newId in store.store.rows &&
        store.store.rows[newId] == Rule(newId, email.userId, answer.name, condition, "extract_notify",
          "{\"notification_title\": \"Auto-handled email\"}", 0.92, "staged", Some(now), None, None, 1, now)
      ensures (r.Some? && Known(evaluator.text, Ids(RuleName, rules), answer.name) &&
               (forall i :: 0 <= i < |rules| ==> rules[i].status == "active" || rules[i].status == "staged")) ==>
        store.store.rows == CountedUse(old(store.store.rows), r.value.ruleId)
    {
      if answer.name == "none" || answer.confidence < CONFIDENCE_FLOOR {
        return None;
      }
      var i := FindNamed(evaluator.text, rules, answer.name);
      var matched;
      if i == |rules| {
        var rule := CreateFromReply(email, answer.name, condition, newId, now, userExists);
        if rule.None? {
          return None;
        }
        matched := rule.value;
      } else {
        matched := rules[i];
        if matched.status != "active" && matched.status != "staged" {
          staged := staged + [matched.id];
          var ignored := store.UpdateStatus(matched.id, "staged", now);
        }
      }
      Fire(matched);
      r := Some(Result(email.rawEmailId, email.userId, email.threadId, answer.confidence, matched.id, true));
    }

    /** `Evaluate`. `loaded` is the database's answer should the cache have none, None when that query
        fails; `reply` is the language model's; `rules` is the list the rule loop ran over. */
    method Evaluate(email: Email, attrs: Attributes, loaded: Option<seq<Rule>>, reply: Option<Answer>,
                    condition: RulePredicate, newId: string, now: int, userExists: bool)
      returns (failed: bool, r: Option<Result>, ghost rules: seq<Rule>)
      requires Valid() && (loaded.Some? ==> IsAnswer(store.store.rows, email.userId, loaded.value))
      modifies this, evaluator, store.store, store.cache
      ensures Valid()
      ensures failed ==> loaded.None? && r.None?
      ensures !failed ==> IsAnswer(old(store.store.rows), email.userId, rules)
      ensures created == old(created) && staged == old(staged)
      ensures r.Some? ==>
        Sound(email, rules, r.value) && executed == old(executed) + [r.value.ruleId] &&
        store.store.rows == CountedUse(old(store.store.rows), r.value.ruleId)
      ensures r.None? ==> executed == old(executed) && store.store.rows == old(store.store.rows)
      ensures !failed ==> forall i :: FirstQualifying(evaluator.text, rules, attrs, i) ==>
        r == Some(Result(email.rawEmailId, email.userId, email.threadId,
                         if rules[i].threshold == 0.0 then 0.92 else rules[i].threshold, rules[i].id, false))
      ensures r.Some? && r.value.llmMatched ==> NoneQualifies(evaluator.text, rules, attrs)
      ensures !failed && NoneQualifies(evaluator.text, rules, attrs) ==>
        FallsBack(evaluator.text, email, rules, reply, r)
    {
      ghost var rows := store.store.rows;
      rules := [];
      var active := store.GetActiveRules(email.userId, now, loaded);
      if active.None? {
        return true, None, rules;
      }
      rules := active.value;
      AnswerThresholds(rows, email.userId, active.value);
      var i := FirstMatch(active.value, attrs);
      if i < |active.value| {
        Fire(active.value[i]);
        FirstIsUnique(evaluator.text, active.value, attrs, i);
        r := Some(Result(email.rawEmailId, email.userId, email.threadId, Confidence(active.value[i]),
                         active.value[i].id, false));
        return false, r, rules;
      }
      var answer := Match(evaluator.text, Ids(RuleName, active.value), reply);
      if answer.None? {
        return false, None, rules;
      }
      r := UseAnswer(email, active.value, answer.value, condition, newId, now, userExists);
      NamedIsKnown(evaluator.text, active.value, if reply.Some? then reply.value.name else "");
      failed := false;
    }
  }

  method FindNamed(x: Text, rules: seq<Rule>, name: string) returns (i: nat)
    ensures i <= |rules|
    ensures if i < |rules| then FirstNamed(x, rules, name, i) else !Known(x, Ids(RuleName, rules), name)
  {
    i := 0;
    while i < |rules|
      invariant i <= |rules|
      invariant forall j :: 0 <= j < i ==> !x.equalFold(rules[j].name, name)
    {
      if x.equalFold(rules[i].name, name) {
        return;
      }
      i := i + 1;
    }
    forall j | 0 <= j < |rules| ensures !x.equalFold(Ids(RuleName, rules)[j], name) {
      IdsAt(RuleName, rules, j);
    }
  }

  lemma FirstIsUnique(x: Text, rules: seq<Rule>, attrs: Attributes, i: int)
    requires FirstQualifying(x, rules, attrs, i)
    ensures forall j :: FirstQualifying(x, rules, attrs, j) ==> j == i
    ensures !NoneQualifies(x, rules, attrs)
  {
    forall j | FirstQualifying(x, rules, attrs, j) ensures j == i {
      NoneBefore(x, rules, attrs, i);
      NoneBefore(x, rules, attrs, j);
    }
  }

  lemma NoneBefore(x: Text, rules: seq<Rule>, attrs: Attributes, i: int)
    requires FirstQualifying(x, rules, attrs, i)
    ensures forall k :: 0 <= k < i ==> !Qualifies(x, rules[k], attrs)
  {
    forall k | 0 <= k < i ensures !Qualifies(x, rules[k], attrs) {
      assert rules[..i][k] == rules[k];
    }
  }

  /** Loaded rules are active rows, so their thresholds lie between 0 and 1. */
  lemma AnswerThresholds(rows: Rows, user: string, rules: seq<Rule>)
    requires ValidRows(rows) && IsAnswer(rows, user, rules)
    ensures forall i :: 0 <= i < |rules| ==>
      rules[i].status == "active" && rules[i].userId == user && 0.0 <= rules[i].threshold <= 1.0
  {
    forall i | 0 <= i < |rules|
      ensures rules[i].status == "active" && rules[i].userId == user && 0.0 <= rules[i].threshold <= 1.0 {
      assert ActiveRow(rows, user, rules[i]);
      assert Storable(rows[rules[i].id]);
    }
  }
}
