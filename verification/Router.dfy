/** The three-stage router: extraction, automatic handling, decision stack
    (classification/internal/router/router.go). */
module Routers {
  import opened Collections
  import opened Predicates
  import opened RuleTables
  import opened AutoEngines
  import Consumers

  type Route = Consumers.Route

  /** The extraction stage: an error, nothing, or a datum. */
  datatype Extraction = Failed | Nothing | Extracted(datum: string)

  datatype Event = Event(rawEmailId: string, userId: string, threadId: string, senderEmail: string,
                         hasAttachments: bool, contacts: seq<string>, hour: int, weekday: int)

  datatype Classification = Classification(
    rawEmailId: string, userId: string, threadId: string, route: Route, confidence: real,
    ruleId: Option<string>, datum: Option<string>, llmMatched: bool)

  /** An absent id is the empty string. */
  datatype Flaw = MissingRawEmailId | MissingUserId | NonTerminalRoute | MissingDatum | MissingRuleId

  predicate IsTerminalRoute(route: Route) {
    route == Consumers.Extract || route == Consumers.Auto || route == Consumers.Decision
  }

  predicate Has(r: Classification, flaw: Flaw) {
    match flaw
    case MissingRawEmailId => r.rawEmailId == ""
    case MissingUserId => r.userId == ""
    case NonTerminalRoute => !IsTerminalRoute(r.route)
    case MissingDatum => r.route == Consumers.Extract && r.datum.None?
    case MissingRuleId => r.route == Consumers.Auto && r.ruleId.None?
  }

  /** What is reported is wrong with the result, and nothing is reported exactly when nothing is wrong. */
  function ValidateResult(r: Classification): (flaw: Option<Flaw>)
    ensures flaw.Some? ==> Has(r, flaw.value)
    ensures flaw.None? <==> forall f: Flaw :: !Has(r, f)
    ensures flaw.None? <==>
      && r.rawEmailId != "" && r.userId != "" && r.route != Consumers.OtherRoute
      && (r.route == Consumers.Extract ==> r.datum.Some?) && (r.route == Consumers.Auto ==> r.ruleId.Some?)
  {
    if Has(r, MissingRawEmailId) then Some(MissingRawEmailId)
    else if Has(r, MissingUserId) then Some(MissingUserId)
    else if Has(r, NonTerminalRoute) then Some(NonTerminalRoute)
    else if Has(r, MissingDatum) then Some(MissingDatum)
    else if Has(r, MissingRuleId) then Some(MissingRuleId)
    else None
  }

  function Positions(s: string, c: char): (r: seq<nat>)
    ensures forall i :: 0 <= i < |r| ==> r[i] < |s| && s[r[i]] == c
  {
    if s == [] then [] else Positions(s[..|s| - 1], c) + if s[|s| - 1] == c then [|s| - 1] else []
  }

  /** The part after the `@` of an address with exactly one. */
  function SenderDomain(address: string): string {
    var at := Positions(address, '@');
    if |at| == 1 then address[at[0] + 1..] else ""
  }

  /** Subject, body and recipient are left empty. */
  function BuildAttributes(e: Event): Attributes {
    Attributes(e.senderEmail, SenderDomain(e.senderEmail), "", "", "", e.hasAttachments, |e.contacts|,
               e.hour, e.weekday)
  }

  /** The part of an address behind its only `@`; without one, or with more, the domain is empty. */
  ghost predicate IsDomain(address: string, domain: string) {
    if exists i :: OnlyAt(address, i) then exists i :: OnlyAt(address, i) && domain == address[i + 1..]
    else domain == ""
  }

  ghost predicate OnlyAt(address: string, i: int) {
    0 <= i < |address| && address[i] == '@' && forall j :: 0 <= j < |address| && j != i ==> address[j] != '@'
  }

  /** The attributes rules are matched against are those of the event. */
  ghost predicate Describes(a: Attributes, e: Event) {
    && a.senderEmail == e.senderEmail && IsDomain(e.senderEmail, a.senderDomain)
    && a.subject == "" && a.body == "" && a.recipient == ""
    && a.hasAttachment == e.hasAttachments && a.threadParticipantCount == |e.contacts|
    && a.timeOfDay == e.hour && a.dayOfWeek == e.weekday
  }

  /** No rule qualifies for the event. */
  ghost predicate NoRuleQualifies(x: Text, rules: seq<Rule>, e: Event) {
    forall a :: Describes(a, e) ==> NoneQualifies(x, rules, a)
  }

  /** Without a qualifying rule the reply decides: the first rule it names with a confidence of at least 0.92 is
      handled automatically, and everything else goes to the decision stack. */
  ghost predicate FollowsReply(x: Text, rules: seq<Rule>, reply: Option<Answer>, r: Classification) {
    if reply.Some? && reply.value.confidence >= 0.92 && reply.value.name != "none" &&
       exists i :: FirstNamed(x, rules, reply.value.name, i)
    then
      && r.route == Consumers.Auto && r.datum == None && r.llmMatched
      && r.confidence == (if reply.value.confidence > 1.0 then 1.0 else reply.value.confidence)
      && exists i :: FirstNamed(x, rules, reply.value.name, i) && r.ruleId == Some(rules[i].id)
    else r.route == Consumers.Decision
  }

  lemma ResultFollows(x: Text, email: Email, rules: seq<Rule>, reply: Option<Answer>, result: Option<Result>,
                      r: Classification)
    requires FallsBack(x, email, rules, reply, result)
    requires result.None? ==> r.route == Consumers.Decision
    requires result.Some? ==>
      && r.route == Consumers.Auto && r.datum == None && r.confidence == result.value.confidence
      && r.ruleId == Some(result.value.ruleId) && r.llmMatched == result.value.llmMatched
    ensures FollowsReply(x, rules, reply, r)
  {
  }

  lemma {:induction false} PositionsAre(s: string, c: char)
    ensures forall i :: i in Positions(s, c) <==> 0 <= i < |s| && s[i] == c
    ensures Distinct(Positions(s, c))
  {
    if s != [] {
      PositionsAre(s[..|s| - 1], c);
    }
  }

  lemma DomainIs(address: string)
    ensures IsDomain(address, SenderDomain(address))
  {
    var at := Positions(address, '@');
    PositionsAre(address, '@');
    assert |at| >= 2 ==> at[0] != at[1];
    forall i | OnlyAt(address, i) ensures |at| == 1 && at[0] == i {
      assert i in at;
      assert forall k :: 0 <= k < |at| ==> at[k] == i;
    }
    if |at| == 1 {
      forall j | 0 <= j < |address| && j != at[0] ensures address[j] != '@' {
        assert j !in at;
      }
      assert OnlyAt(address, at[0]);
    }
  }

  lemma DomainIsUnique(address: string, a: string, b: string)
    requires IsDomain(address, a) && IsDomain(address, b)
    ensures a == b
  {
  }

  lemma AttributesDescribe(e: Event)
    ensures forall a :: Describes(a, e) <==> a == BuildAttributes(e)
  {
    DomainIs(e.senderEmail);
    forall a | Describes(a, e) ensures a == BuildAttributes(e) {
      DomainIsUnique(e.senderEmail, a.senderDomain, SenderDomain(e.senderEmail));
    }
  }

  class Router {
    const engine: Engine

    constructor (engine: Engine)
      ensures this.engine == engine
    {
      this.engine := engine;
    }

    /** Stages two and three: the rule engine, then the decision stack, also when the engine fails. */
    method RouteUnextracted(e: Event, attrs: Attributes, loaded: Option<seq<Rule>>, reply: Option<Answer>,
                            condition: RulePredicate, newId: string, now: int, userExists: bool)
      returns (r: Classification, ghost failed: bool, ghost rules: seq<Rule>)
      requires engine.Valid() && (loaded.Some? ==> IsAnswer(engine.store.store.rows, e.userId, loaded.value))
      modifies engine, engine.evaluator, engine.store.store, engine.store.cache
      ensures engine.Valid()
      ensures r.rawEmailId == e.rawEmailId && r.userId == e.userId && r.threadId == e.threadId
      ensures r.route != Consumers.Auto ==>
        r == Classification(e.rawEmailId, e.userId, e.threadId, Consumers.Decision, 0.0, None, None, false)
      ensures failed ==> loaded.None? && r.route == Consumers.Decision
      ensures !failed ==> IsAnswer(old(engine.store.store.rows), e.userId, rules)
      ensures r.route == Consumers.Auto ==>
        0.92 <= r.confidence <= 1.0 && exists i :: 0 <= i < |rules| && r.ruleId == Some(rules[i].id)
      ensures !failed ==> forall i :: FirstQualifying(engine.evaluator.text, rules, attrs, i) ==>
        r.route == Consumers.Auto && r.ruleId == Some(rules[i].id) &&
        r.confidence == if rules[i].threshold == 0.0 then 0.92 else rules[i].threshold
      ensures !failed && NoneQualifies(engine.evaluator.text, rules, attrs) ==>
        FollowsReply(engine.evaluator.text, rules, reply, r)
      ensures engine.executed ==
        old(engine.executed) + if r.route == Consumers.Auto && r.ruleId.Some? then [r.ruleId.value] else []
      ensures engine.store.store.rows == if r.route == Consumers.Auto && r.ruleId.Some?
        then CountedUse(old(engine.store.store.rows), r.ruleId.value) else old(engine.store.store.rows)
      ensures engine.created == old(engine.created) && engine.staged == old(engine.staged)
    {
      var email := Email(e.rawEmailId, e.userId, e.threadId);
      var autoFailed, result;
      autoFailed, result, rules := engine.Evaluate(
        email, attrs, loaded, reply, condition, newId, now, userExists);
      failed := autoFailed;
      if !autoFailed && result.Some? {
        r := Classification(result.value.rawEmailId, result.value.userId, result.value.threadId, Consumers.Auto,
                            result.value.confidence, Some(result.value.ruleId), None, result.value.llmMatched);
      } else {
        r := Classification(e.rawEmailId, e.userId, e.threadId, Consumers.Decision, 0.0, None, None, false);
      }
      if !failed && NoneQualifies(engine.evaluator.text, rules, attrs) {
        ResultFollows(engine.evaluator.text, email, rules, reply, result, r);
      }
    }

    /** Extraction wins; then an active rule or the language model's choice among the active rules; then
        the decision stack, also when extraction or the rule engine fails. Whichever it is, the result is
        valid when the event has its ids. */
    method RouteEvent(e: Event, extraction: Extraction, loaded: Option<seq<Rule>>, reply: Option<Answer>,
                      condition: RulePredicate, newId: string, now: int, userExists: bool)
      returns (r: Classification, ghost failed: bool, ghost rules: seq<Rule>)
      requires engine.Valid() && (loaded.Some? ==> IsAnswer(engine.store.store.rows, e.userId, loaded.value))
      modifies engine, engine.evaluator, engine.store.store, engine.store.cache
      ensures engine.Valid()
      ensures r.rawEmailId == e.rawEmailId && r.userId == e.userId && r.threadId == e.threadId
      ensures ValidateResult(r).None? <==> e.rawEmailId != "" && e.userId != ""
      ensures r.route == Consumers.Extract <==> extraction.Extracted?
      ensures extraction.Extracted? ==>
        r == Classification(e.rawEmailId, e.userId, e.threadId, Consumers.Extract, 1.0, None,
                            Some(extraction.datum), false)
      ensures r.route != Consumers.Extract && r.route != Consumers.Auto ==>
        r == Classification(e.rawEmailId, e.userId, e.threadId, Consumers.Decision, 0.0, None, None, false)
      ensures failed ==> loaded.None? && r.route == Consumers.Decision
      ensures !extraction.Extracted? && !failed ==> IsAnswer(old(engine.store.store.rows), e.userId, rules)
      ensures r.route == Consumers.Auto ==>
        0.92 <= r.confidence <= 1.0 && exists i :: 0 <= i < |rules| && r.ruleId == Some(rules[i].id)
      ensures !extraction.Extracted? && !failed ==>
        forall a, i :: Describes(a, e) && FirstQualifying(engine.evaluator.text, rules, a, i) ==>
          r.route == Consumers.Auto && r.ruleId == Some(rules[i].id) &&
          r.confidence == if rules[i].threshold == 0.0 then 0.92 else rules[i].threshold
      ensures !extraction.Extracted? && !failed && NoRuleQualifies(engine.evaluator.text, rules, e) ==>
        FollowsReply(engine.evaluator.text, rules, reply, r)
      ensures engine.executed ==
        old(engine.executed) + if r.route == Consumers.Auto && r.ruleId.Some? then [r.ruleId.value] else []
      ensures engine.store.store.rows == if r.route == Consumers.Auto && r.ruleId.Some?
        then CountedUse(old(engine.store.store.rows), r.ruleId.value) else old(engine.store.store.rows)
      ensures engine.created == old(engine.created) && engine.staged == old(engine.staged)
    {
      failed, rules := false, [];
      var attrs := BuildAttributes(e);
      AttributesDescribe(e);
      if extraction.Extracted? {
        r := Classification(e.rawEmailId, e.userId, e.threadId, Consumers.Extract, 1.0, None,
                            Some(extraction.datum), false);
        return;
      }
      r, failed, rules := RouteUnextracted(e, attrs, loaded, reply, condition, newId, now, userExists);
    }
  }
}
