/** Rule predicates over e-mail attributes: the caching evaluator of
    classification/internal/auto/predicate.go and the plain one of classification/internal/models/models.go. */
module Predicates {
  import opened Collections
  import opened RegexCaches

  /** A Go `interface{}`: the values attributes and conditions carry. */
  datatype Value =
    | Nil | Str(s: string) | Int(i: int) | Float(r: real) | Bool(b: bool)
    | Strs(strs: seq<string>) | List(items: seq<Value>) | Other

  datatype Condition = Condition(field: string, operator: string, value: Value)

  datatype RulePredicate = RulePredicate(allOf: seq<Condition>, anyOf: seq<Condition>)

  datatype Attributes = Attributes(
    senderEmail: string, senderDomain: string, subject: string, body: string, recipient: string,
    hasAttachment: bool, threadParticipantCount: int, timeOfDay: int, dayOfWeek: int)

  /** The library functions on text, whatever they are. */
  datatype Text = Text(
    equalFold: (string, string) -> bool, contains: (string, string) -> bool,
    compare: (string, string) -> int, toLower: string -> string,
    accepts: Accepts, matches: (string, string) -> bool)

  /** A verdict or an error. */
  datatype Verdict = Ok(matched: bool) | Err

  function Get(a: Attributes, field: string): Value {
    if field == "sender_email" then Str(a.senderEmail)
    else if field == "sender_domain" then Str(a.senderDomain)
    else if field == "subject" then Str(a.subject)
    else if field == "body" then Str(a.body)
    else if field == "recipient" then Str(a.recipient)
    else if field == "has_attachment" then Bool(a.hasAttachment)
    else if field == "thread_participant_count" then Int(a.threadParticipantCount)
    else if field == "time_of_day" then Int(a.timeOfDay)
    else if field == "day_of_week" then Int(a.dayOfWeek)
    else Nil
  }

  /** Go's conversion of a float to an int drops the fraction towards zero. */
  function Truncate(r: real): int {
    if r >= 0.0 then r.Floor else -((-r).Floor)
  }

  function Sign(a: real, b: real): int {
    if a < b then -1 else if a > b then 1 else 0
  }

  // ---------------------------------------------------------------------------
  // One condition, evaluator of package auto
  // ---------------------------------------------------------------------------

  function AutoEq(x: Text, a: Value, b: Value): bool {
    if a.Str? then b.Str? && x.equalFold(a.s, b.s) else a == b
  }

  /** `compareValues`; None is its error. */
  function CompareValues(x: Text, a: Value, b: Value): Option<int> {
    match a
    case Int(i) =>
      if b.Int? then Some(Sign(i as real, b.i as real))
      else if b.Float? then Some(Sign(i as real, Truncate(b.r) as real))
      else None
    case Float(r) =>
      if b.Float? then Some(Sign(r, b.r)) else if b.Int? then Some(Sign(r, b.i as real)) else None
    case Str(s) => if b.Str? then Some(x.compare(x.toLower(s), x.toLower(b.s))) else None
    case _ => None
  }

  /** Some listed text equals `s` up to case. */
  predicate FoldsToText(x: Text, s: string, strs: seq<string>) {
    exists i :: 0 <= i < |strs| && x.equalFold(s, strs[i])
  }

  predicate FoldsToItem(x: Text, s: string, items: seq<Value>) {
    exists i :: 0 <= i < |items| && items[i].Str? && x.equalFold(s, items[i].s)
  }

  /** `evalIn`; None is its error. */
  function AutoIn(x: Text, a: Value, b: Value): Option<bool> {
    if !a.Str? then None
    else match b
      case Strs(strs) => Some(FoldsToText(x, a.s, strs))
      case List(items) => Some(FoldsToItem(x, a.s, items))
      case _ => None
  }

  function AutoRegex(x: Text, a: Value, b: Value): Verdict {
    if !a.Str? || !b.Str? then Err
    else match Compile(x.accepts, b.s)
      case None => Err
      case Some(re) => Ok(x.matches(re.source, a.s))
  }

  /** The switch over the operator, for a field that has a value. */
  function AutoOperator(x: Text, op: string, f: Value, v: Value): Verdict {
    if op == "eq" then Ok(AutoEq(x, f, v))
    else if op == "ne" then Ok(!AutoEq(x, f, v))
    else if op == "contains" then
      if f.Str? && v.Str? then Ok(x.contains(x.toLower(f.s), x.toLower(v.s))) else Err
    else if op == "regex" then AutoRegex(x, f, v)
    else if op == "gt" then
      match CompareValues(x, f, v) case None => Err case Some(cmp) => Ok(cmp > 0)
    else if op == "lt" then
      match CompareValues(x, f, v) case None => Err case Some(cmp) => Ok(cmp < 0)
    else if op == "in" then
      match AutoIn(x, f, v) case None => Err case Some(found) => Ok(found)
    else if op == "not_in" then
      match AutoIn(x, f, v) case None => Err case Some(found) => Ok(!found)
    else Err
  }

  /** `evalCondition` with every pattern compiled afresh. */
  function AutoCondition(x: Text, c: Condition, attrs: Attributes): Verdict {
    var f := Get(attrs, c.field);
    if f == Nil then Ok(false) else AutoOperator(x, c.operator, f, c.value)
  }

  // ---------------------------------------------------------------------------
  // One condition, evaluator of package models
  // ---------------------------------------------------------------------------

  function ToFloat(v: Value): Option<real> {
    if v.Int? then Some(v.i as real) else if v.Float? then Some(v.r) else None
  }

  /** `compareNumeric`: what is not a number compares equal to everything. */
  function CompareNumeric(a: Value, b: Value): int {
    var fa, fb := ToFloat(a), ToFloat(b);
    if fa.None? || fb.None? then 0 else Sign(fa.value, fb.value)
  }

  function ModelsOperator(x: Text, op: string, f: Value, v: Value): Verdict {
    if op == "eq" then Ok(if f.Str? && v.Str? then x.equalFold(f.s, v.s) else f == v)
    else if op == "ne" then Ok(if f.Str? && v.Str? then !x.equalFold(f.s, v.s) else f != v)
    else if op == "contains" then Ok(f.Str? && v.Str? && x.contains(x.toLower(f.s), x.toLower(v.s)))
    else if op == "regex" then
      if !f.Str? || !v.Str? then Ok(false)
      else match Compile(x.accepts, v.s)
        case None => Err
        case Some(re) => Ok(x.matches(re.source, f.s))
    else if op == "gt" then Ok(CompareNumeric(f, v) > 0)
    else if op == "lt" then Ok(CompareNumeric(f, v) < 0)
    else if op == "in" then Ok(f.Str? && v.Strs? && f.s in v.strs)
    else if op == "not_in" then Ok(f.Str? && v.Strs? && f.s !in v.strs)
    else Ok(false)
  }

  function ModelsCondition(x: Text, c: Condition, attrs: Attributes): Verdict {
    ModelsOperator(x, c.operator, Get(attrs, c.field), c.value)
  }

  // ---------------------------------------------------------------------------
  // What a condition means, field by field
  // ---------------------------------------------------------------------------

  ghost predicate NamesText(a: Attributes, field: string, t: string) {
    || (field == "sender_email" && t == a.senderEmail) || (field == "sender_domain" && t == a.senderDomain)
    || (field == "subject" && t == a.subject) || (field == "body" && t == a.body)
    || (field == "recipient" && t == a.recipient)
  }

  ghost predicate NamesNumber(a: Attributes, field: string, n: int) {
    || (field == "thread_participant_count" && n == a.threadParticipantCount)
    || (field == "time_of_day" && n == a.timeOfDay) || (field == "day_of_week" && n == a.dayOfWeek)
  }

  predicate NamesNothing(field: string) {
    field !in {"sender_email", "sender_domain", "subject", "body", "recipient", "has_attachment",
               "thread_participant_count", "time_of_day", "day_of_week"}
  }

  /** `m` is `r` without its fraction. */
  predicate IsTruncation(r: real, m: int) {
    if r >= 0.0 then m as real <= r < m as real + 1.0 else m as real - 1.0 < r <= m as real
  }

  ghost predicate AutoText(x: Text, op: string, t: string, v: Value, r: Verdict) {
    match op
    case "eq" => r == Ok(v.Str? && x.equalFold(t, v.s))
    case "ne" => r == Ok(!(v.Str? && x.equalFold(t, v.s)))
    case "contains" => r == if v.Str? then Ok(x.contains(x.toLower(t), x.toLower(v.s))) else Err
    case "regex" => r == if v.Str? && x.accepts(v.s) then Ok(x.matches(v.s, t)) else Err
    case "gt" => r == if v.Str? then Ok(x.compare(x.toLower(t), x.toLower(v.s)) > 0) else Err
    case "lt" => r == if v.Str? then Ok(x.compare(x.toLower(t), x.toLower(v.s)) < 0) else Err
    case "in" =>
      r == if v.Strs? then Ok(FoldsToText(x, t, v.strs)) else if v.List? then Ok(FoldsToItem(x, t, v.items)) else Err
    case "not_in" =>
      r == if v.Strs? then Ok(!FoldsToText(x, t, v.strs)) else if v.List? then Ok(!FoldsToItem(x, t, v.items)) else Err
    case _ => r == Err
  }

  ghost predicate AutoNumber(op: string, n: int, v: Value, r: Verdict) {
    match op
    case "eq" => r == Ok(v == Int(n))
    case "ne" => r == Ok(v != Int(n))
    case "gt" =>
      if v.Int? then r == Ok(n > v.i)
      else if v.Float? then forall m :: IsTruncation(v.r, m) ==> r == Ok(n > m)
      else r == Err
    case "lt" =>
      if v.Int? then r == Ok(n < v.i)
      else if v.Float? then forall m :: IsTruncation(v.r, m) ==> r == Ok(n < m)
      else r == Err
    case _ => r == Err
  }

  ghost predicate AutoFlag(op: string, b: bool, v: Value, r: Verdict) {
    r == if op == "eq" then Ok(v == Bool(b)) else if op == "ne" then Ok(v != Bool(b)) else Err
  }

  /** The caching evaluator's verdict on a condition, told from the attribute its field names. */
  ghost predicate AutoMeans(x: Text, c: Condition, a: Attributes, r: Verdict) {
    && (forall t :: NamesText(a, c.field, t) ==> AutoText(x, c.operator, t, c.value, r))
    && (forall n :: NamesNumber(a, c.field, n) ==> AutoNumber(c.operator, n, c.value, r))
    && (c.field == "has_attachment" ==> AutoFlag(c.operator, a.hasAttachment, c.value, r))
    && (NamesNothing(c.field) ==> r == Ok(false))
  }

  ghost predicate ModelsText(x: Text, op: string, t: string, v: Value, r: Verdict) {
    match op
    case "eq" => r == Ok(v.Str? && x.equalFold(t, v.s))
    case "ne" => r == Ok(!(v.Str? && x.equalFold(t, v.s)))
    case "contains" => r == Ok(v.Str? && x.contains(x.toLower(t), x.toLower(v.s)))
    case "regex" => r == if !v.Str? then Ok(false) else if x.accepts(v.s) then Ok(x.matches(v.s, t)) else Err
    case "in" => r == Ok(v.Strs? && t in v.strs)
    case "not_in" => r == Ok(v.Strs? && t !in v.strs)
    case _ => r == Ok(false)
  }

  ghost predicate ModelsNumber(op: string, n: int, v: Value, r: Verdict) {
    match op
    case "eq" => r == Ok(v == Int(n))
    case "ne" => r == Ok(v != Int(n))
    case "gt" => r == Ok((v.Int? && n > v.i) || (v.Float? && n as real > v.r))
    case "lt" => r == Ok((v.Int? && n < v.i) || (v.Float? && (n as real) < v.r))
    case _ => r == Ok(false)
  }

  ghost predicate ModelsFlag(op: string, b: bool, v: Value, r: Verdict) {
    r == Ok(if op == "eq" then v == Bool(b) else if op == "ne" then v != Bool(b) else false)
  }

  /** The plain evaluator's; an unknown field is compared as nil. */
  ghost predicate ModelsMeans(x: Text, c: Condition, a: Attributes, r: Verdict) {
    && (forall t :: NamesText(a, c.field, t) ==> ModelsText(x, c.operator, t, c.value, r))
    && (forall n :: NamesNumber(a, c.field, n) ==> ModelsNumber(c.operator, n, c.value, r))
    && (c.field == "has_attachment" ==> ModelsFlag(c.operator, a.hasAttachment, c.value, r))
    && (NamesNothing(c.field) ==>
          r == Ok(if c.operator == "eq" then c.value == Nil else c.operator == "ne" && c.value != Nil))
  }

  lemma TruncationIsUnique(r: real, m: int)
    ensures IsTruncation(r, m) <==> m == Truncate(r)
  {
    if r < 0.0 {
      var f := (-r).Floor;
      assert f as real <= -r < f as real + 1.0;
      assert (-f) as real == -(f as real);
    }
  }

  /** What a field name reads. */
  lemma FieldReads(a: Attributes, field: string)
    ensures forall t :: NamesText(a, field, t) <==> Get(a, field) == Str(t)
    ensures forall n :: NamesNumber(a, field, n) <==> Get(a, field) == Int(n)
    ensures field == "has_attachment" <==> Get(a, field).Bool?
    ensures field == "has_attachment" ==> Get(a, field) == Bool(a.hasAttachment)
    ensures NamesNothing(field) <==> Get(a, field) == Nil
  {
  }

  lemma AutoTextMeans(x: Text, op: string, t: string, v: Value, r: Verdict)
    ensures AutoText(x, op, t, v, r) <==> r == AutoOperator(x, op, Str(t), v)
  {
  }

  lemma AutoNumberMeans(x: Text, op: string, n: int, v: Value, r: Verdict)
    ensures AutoNumber(op, n, v, r) <==> r == AutoOperator(x, op, Int(n), v)
  {
    if v.Float? {
      forall m ensures IsTruncation(v.r, m) <==> m == Truncate(v.r) {
        TruncationIsUnique(v.r, m);
      }
      assert IsTruncation(v.r, Truncate(v.r));
    }
  }

  lemma AutoFlagMeans(x: Text, op: string, b: bool, v: Value, r: Verdict)
    ensures AutoFlag(op, b, v, r) <==> r == AutoOperator(x, op, Bool(b), v)
  {
  }

  /** The verdict of the caching evaluator is what the condition means, and nothing else is. */
  lemma AutoConditionMeans(x: Text, c: Condition, a: Attributes, r: Verdict)
    ensures AutoMeans(x, c, a, r) <==> r == AutoCondition(x, c, a)
  {
    FieldReads(a, c.field);
    match Get(a, c.field)
    case Str(t) => AutoTextMeans(x, c.operator, t, c.value, r); assert NamesText(a, c.field, t);
    case Int(n) => AutoNumberMeans(x, c.operator, n, c.value, r); assert NamesNumber(a, c.field, n);
    case Bool(b) => AutoFlagMeans(x, c.operator, b, c.value, r);
    case _ =>
  }

  lemma ModelsTextMeans(x: Text, op: string, t: string, v: Value, r: Verdict)
    ensures ModelsText(x, op, t, v, r) <==> r == ModelsOperator(x, op, Str(t), v)
  {
  }

  lemma ModelsNumberMeans(x: Text, op: string, n: int, v: Value, r: Verdict)
    ensures ModelsNumber(op, n, v, r) <==> r == ModelsOperator(x, op, Int(n), v)
  {
  }

  lemma ModelsFlagMeans(x: Text, op: string, b: bool, v: Value, r: Verdict)
    ensures ModelsFlag(op, b, v, r) <==> r == ModelsOperator(x, op, Bool(b), v)
  {
  }

  lemma ModelsConditionMeans(x: Text, c: Condition, a: Attributes, r: Verdict)
    ensures ModelsMeans(x, c, a, r) <==> r == ModelsCondition(x, c, a)
  {
    FieldReads(a, c.field);
    match Get(a, c.field)
    case Str(t) => ModelsTextMeans(x, c.operator, t, c.value, r); assert NamesText(a, c.field, t);
    case Int(n) => ModelsNumberMeans(x, c.operator, n, c.value, r); assert NamesNumber(a, c.field, n);
    case Bool(b) => ModelsFlagMeans(x, c.operator, b, c.value, r);
    case _ =>
  }

  // ---------------------------------------------------------------------------
  // Where the two agree
  // ---------------------------------------------------------------------------

  /** A number that truncation moves away from the compared integer. */
  predicate LosesFraction(i: int, r: real, above: bool) {
    i == Truncate(r) && if above then i as real > r else (i as real) < r
  }

  /** The conditions on which the evaluators agree, read off field, operator and value. */
  predicate Common(x: Text, c: Condition, attrs: Attributes) {
    var f, v, op := Get(attrs, c.field), c.value, c.operator;
    if f == Nil then
      if op == "eq" then v != Nil else if op == "ne" then v == Nil else true
    else if op == "eq" || op == "ne" then true
    else if op == "contains" || op == "regex" then f.Str? && v.Str?
    else if op == "gt" then
      (f.Int? && (v.Int? || (v.Float? && !LosesFraction(f.i, v.r, true)))) ||
      (f.Str? && v.Str? && x.compare(x.toLower(f.s), x.toLower(v.s)) <= 0)
    else if op == "lt" then
      (f.Int? && (v.Int? || (v.Float? && !LosesFraction(f.i, v.r, false)))) ||
      (f.Str? && v.Str? && x.compare(x.toLower(f.s), x.toLower(v.s)) >= 0)
    else if op == "in" || op == "not_in" then
      f.Str? &&
      (if v.Strs? then FoldsToText(x, f.s, v.strs) <==> f.s in v.strs
       else if v.List? then FoldsToItem(x, f.s, v.items) <==> op == "not_in"
       else false)
    else false
  }

  lemma TruncationOrder(i: int, r: real)
    ensures i > Truncate(r) <==> i as real > r && !LosesFraction(i, r, true)
    ensures i < Truncate(r) <==> (i as real) < r && !LosesFraction(i, r, false)
  {
  }

  /** Verdict and error status of the two evaluators coincide exactly on the common conditions. */
  lemma ConditionsAgreeIff(x: Text, c: Condition, attrs: Attributes)
    ensures AutoCondition(x, c, attrs) == ModelsCondition(x, c, attrs) <==> Common(x, c, attrs)
  {
    var f := Get(attrs, c.field);
    if f.Int? && c.value.Float? {
      TruncationOrder(f.i, c.value.r);
    }
  }

  /** The fragment both document: known field, eq or ne on anything, contains or regex on text,
      gt or lt of an integer against an integral number. */
  predicate Documented(c: Condition, attrs: Attributes) {
    var f, v := Get(attrs, c.field), c.value;
    f != Nil &&
    (c.operator == "eq" || c.operator == "ne" ||
     ((c.operator == "contains" || c.operator == "regex") && f.Str? && v.Str?) ||
     ((c.operator == "gt" || c.operator == "lt") && f.Int? &&
      (v.Int? || (v.Float? && v.r == v.r.Floor as real))))
  }

  lemma NegatedFloor(n: int)
    ensures (-(n as real)).Floor == -n
  {
    assert -(n as real) == (-n) as real;
  }

  lemma DocumentedIsCommon(x: Text, c: Condition, attrs: Attributes)
    requires Documented(c, attrs)
    ensures Common(x, c, attrs)
  {
    var f := Get(attrs, c.field);
    if f.Int? && c.value.Float? {
      var r := c.value.r;
      if r < 0.0 {
        NegatedFloor(r.Floor);
      }
    }
  }

  // ---------------------------------------------------------------------------
  // Whole predicates
  // ---------------------------------------------------------------------------

  function AutoVerdicts(x: Text, cs: seq<Condition>, attrs: Attributes): (r: seq<Verdict>)
    ensures |r| == |cs|
  {
    if cs == [] then [] else AutoVerdicts(x, cs[..|cs| - 1], attrs) + [AutoCondition(x, cs[|cs| - 1], attrs)]
  }

  function ModelsVerdicts(x: Text, cs: seq<Condition>, attrs: Attributes): (r: seq<Verdict>)
    ensures |r| == |cs|
  {
    if cs == [] then [] else ModelsVerdicts(x, cs[..|cs| - 1], attrs) + [ModelsCondition(x, cs[|cs| - 1], attrs)]
  }

  /** `i` is where a scan that runs over `going` stops. */
  ghost predicate StopsAt(vs: seq<Verdict>, going: bool, i: int) {
    0 <= i < |vs| && vs[i] != Ok(going) && forall j :: 0 <= j < i ==> vs[j] == Ok(going)
  }

  ghost predicate RunsThrough(vs: seq<Verdict>, going: bool) {
    forall j :: 0 <= j < |vs| ==> vs[j] == Ok(going)
  }

  /** What a predicate with these condition verdicts means: all of the first list, and one of the
      second unless it is empty; the first deciding condition decides, an error included. */
  ghost predicate Decides(all: seq<Verdict>, any: seq<Verdict>, r: Verdict) {
    if RunsThrough(all, true) then
      if any == [] then r == Ok(true)
      else if RunsThrough(any, false) then r == Ok(false)
      else exists i :: StopsAt(any, false, i) && r == any[i]
    else exists i :: StopsAt(all, true, i) && r == all[i]
  }

  lemma StopIsUnique(vs: seq<Verdict>, going: bool, i: int, j: int)
    requires StopsAt(vs, going, i) && StopsAt(vs, going, j)
    ensures i == j && !RunsThrough(vs, going)
  {
  }

  /** The meaning determines the result. */
  lemma DecidesUniquely(all: seq<Verdict>, any: seq<Verdict>, r: Verdict, s: Verdict)
    requires Decides(all, any, r) && Decides(all, any, s)
    ensures r == s
  {
    if !RunsThrough(all, true) {
      var i :| StopsAt(all, true, i) && r == all[i];
      var j :| StopsAt(all, true, j) && s == all[j];
      StopIsUnique(all, true, i, j);
    } else if any != [] && !RunsThrough(any, false) {
      var i :| StopsAt(any, false, i) && r == any[i];
      var j :| StopsAt(any, false, j) && s == any[j];
      StopIsUnique(any, false, i, j);
    }
  }

  /** `i` is the first verdict that is not `going`, and it is `r`. */
  ghost predicate FirstOther(vs: seq<Verdict>, going: bool, i: int, r: Verdict) {
    0 <= i < |vs| && vs[i] == r && forall j :: 0 <= j < i ==> vs[j] == Ok(going)
  }

  /** A predicate matches exactly when every allOf condition does and anyOf is empty or has a matching
      condition behind failing ones only. */
  lemma MatchIff(all: seq<Verdict>, any: seq<Verdict>)
    ensures Decides(all, any, Ok(true)) <==>
      (forall i :: 0 <= i < |all| ==> all[i] == Ok(true)) &&
      (any == [] || exists i :: FirstOther(any, false, i, Ok(true)))
  {
    if Decides(all, any, Ok(true)) && any != [] {
      var i :| StopsAt(any, false, i) && Ok(true) == any[i];
      assert FirstOther(any, false, i, Ok(true));
    }
    if RunsThrough(all, true) && any != [] && exists i :: FirstOther(any, false, i, Ok(true)) {
      var i :| FirstOther(any, false, i, Ok(true));
      assert StopsAt(any, false, i);
    }
  }

  /** It is an error exactly when a condition is, behind matching ones in allOf, or in anyOf behind failing
      ones while all of allOf match. */
  lemma ErrorIff(all: seq<Verdict>, any: seq<Verdict>)
    ensures Decides(all, any, Err) <==>
      (exists i :: FirstOther(all, true, i, Err)) ||
      ((forall i :: 0 <= i < |all| ==> all[i] == Ok(true)) && exists i :: FirstOther(any, false, i, Err))
  {
    if RunsThrough(all, true) {
      if Decides(all, any, Err) {
        var i :| StopsAt(any, false, i) && Err == any[i];
        assert FirstOther(any, false, i, Err);
      }
      if exists i :: FirstOther(any, false, i, Err) {
        var i :| FirstOther(any, false, i, Err);
        assert StopsAt(any, false, i);
      }
    } else {
      if Decides(all, any, Err) {
        var i :| StopsAt(all, true, i) && Err == all[i];
        assert FirstOther(all, true, i, Err);
      }
      if exists i :: FirstOther(all, true, i, Err) {
        var i :| FirstOther(all, true, i, Err);
        assert StopsAt(all, true, i);
      }
    }
  }

  lemma {:induction false} FirstStop(vs: seq<Verdict>, going: bool) returns (i: int)
    requires !RunsThrough(vs, going)
    ensures StopsAt(vs, going, i)
  {
    i := 0;
    if vs[0] == Ok(going) {
      assert !RunsThrough(vs[1..], going) by {
        var j :| 0 <= j < |vs| && vs[j] != Ok(going);
        assert vs[1..][j - 1] == vs[j];
      }
      i := FirstStop(vs[1..], going);
      i := i + 1;
      forall j | 0 <= j < i ensures vs[j] == Ok(going) {
        assert j > 0 ==> vs[1..][j - 1] == vs[j];
      }
    }
  }

  /** Some result is always decided, so by the two above and `DecidesUniquely` the rest do not match. */
  lemma AlwaysDecided(all: seq<Verdict>, any: seq<Verdict>) returns (r: Verdict)
    ensures Decides(all, any, r)
  {
    if !RunsThrough(all, true) {
      var i := FirstStop(all, true);
      r := all[i];
    } else if any == [] {
      r := Ok(true);
    } else if RunsThrough(any, false) {
      r := Ok(false);
    } else {
      var i := FirstStop(any, false);
      r := any[i];
    }
  }

  lemma {:induction false} VerdictsAt(x: Text, cs: seq<Condition>, attrs: Attributes, i: int)
    requires 0 <= i < |cs|
    ensures AutoVerdicts(x, cs, attrs)[i] == AutoCondition(x, cs[i], attrs)
    ensures ModelsVerdicts(x, cs, attrs)[i] == ModelsCondition(x, cs[i], attrs)
  {
    if i < |cs| - 1 {
      VerdictsAt(x, cs[..|cs| - 1], attrs, i);
    }
  }

  lemma {:induction false} CommonVerdicts(x: Text, cs: seq<Condition>, attrs: Attributes)
    requires forall i :: 0 <= i < |cs| ==> Common(x, cs[i], attrs)
    ensures AutoVerdicts(x, cs, attrs) == ModelsVerdicts(x, cs, attrs)
  {
    if cs != [] {
      CommonVerdicts(x, cs[..|cs| - 1], attrs);
      ConditionsAgreeIff(x, cs[|cs| - 1], attrs);
    }
  }

  /** On predicates of common conditions the two evaluators give the same result. */
  lemma EvaluatorsAgree(x: Text, p: RulePredicate, attrs: Attributes, auto: Verdict, models: Verdict)
    requires forall i :: 0 <= i < |p.allOf| ==> Common(x, p.allOf[i], attrs)
    requires forall i :: 0 <= i < |p.anyOf| ==> Common(x, p.anyOf[i], attrs)
    requires Decides(AutoVerdicts(x, p.allOf, attrs), AutoVerdicts(x, p.anyOf, attrs), auto)
    requires Decides(ModelsVerdicts(x, p.allOf, attrs), ModelsVerdicts(x, p.anyOf, attrs), models)
    ensures auto == models
  {
    CommonVerdicts(x, p.allOf, attrs);
    CommonVerdicts(x, p.anyOf, attrs);
    DecidesUniquely(AutoVerdicts(x, p.allOf, attrs), AutoVerdicts(x, p.anyOf, attrs), auto, models);
  }

  /** The verdicts are what the conditions mean. */
  ghost predicate AutoMeansAll(x: Text, cs: seq<Condition>, attrs: Attributes, vs: seq<Verdict>) {
    |vs| == |cs| && forall i :: 0 <= i < |cs| ==> AutoMeans(x, cs[i], attrs, vs[i])
  }

  ghost predicate ModelsMeansAll(x: Text, cs: seq<Condition>, attrs: Attributes, vs: seq<Verdict>) {
    |vs| == |cs| && forall i :: 0 <= i < |cs| ==> ModelsMeans(x, cs[i], attrs, vs[i])
  }

  lemma AutoVerdictsMean(x: Text, cs: seq<Condition>, attrs: Attributes)
    ensures AutoMeansAll(x, cs, attrs, AutoVerdicts(x, cs, attrs))
  {
    forall i | 0 <= i < |cs| ensures AutoMeans(x, cs[i], attrs, AutoVerdicts(x, cs, attrs)[i]) {
      VerdictsAt(x, cs, attrs, i);
      AutoConditionMeans(x, cs[i], attrs, AutoVerdicts(x, cs, attrs)[i]);
    }
  }

  lemma ModelsVerdictsMean(x: Text, cs: seq<Condition>, attrs: Attributes)
    ensures ModelsMeansAll(x, cs, attrs, ModelsVerdicts(x, cs, attrs))
  {
    forall i | 0 <= i < |cs| ensures ModelsMeans(x, cs[i], attrs, ModelsVerdicts(x, cs, attrs)[i]) {
      VerdictsAt(x, cs, attrs, i);
      ModelsConditionMeans(x, cs[i], attrs, ModelsVerdicts(x, cs, attrs)[i]);
    }
  }

  /** `r` is what the predicate means by the caching evaluator's reading of its conditions. */
  ghost predicate AutoPredicateMeans(x: Text, p: RulePredicate, attrs: Attributes, r: Verdict) {
    exists all, any :: AutoMeansAll(x, p.allOf, attrs, all) && AutoMeansAll(x, p.anyOf, attrs, any) &&
      Decides(all, any, r)
  }

  ghost predicate ModelsPredicateMeans(x: Text, p: RulePredicate, attrs: Attributes, r: Verdict) {
    exists all, any :: ModelsMeansAll(x, p.allOf, attrs, all) && ModelsMeansAll(x, p.anyOf, attrs, any) &&
      Decides(all, any, r)
  }

  lemma AutoVerdictsOnly(x: Text, cs: seq<Condition>, attrs: Attributes, vs: seq<Verdict>)
    requires AutoMeansAll(x, cs, attrs, vs)
    ensures vs == AutoVerdicts(x, cs, attrs)
  {
    forall i | 0 <= i < |cs| ensures vs[i] == AutoVerdicts(x, cs, attrs)[i] {
      VerdictsAt(x, cs, attrs, i);
      AutoConditionMeans(x, cs[i], attrs, vs[i]);
    }
  }

  /** A predicate has one meaning: what its conditions' verdicts decide. */
  lemma AutoMeaningIff(x: Text, p: RulePredicate, attrs: Attributes, r: Verdict)
    ensures AutoPredicateMeans(x, p, attrs, r) <==>
            Decides(AutoVerdicts(x, p.allOf, attrs), AutoVerdicts(x, p.anyOf, attrs), r)
  {
    AutoVerdictsMean(x, p.allOf, attrs);
    AutoVerdictsMean(x, p.anyOf, attrs);
    if AutoPredicateMeans(x, p, attrs, r) {
      var all, any :| AutoMeansAll(x, p.allOf, attrs, all) && AutoMeansAll(x, p.anyOf, attrs, any) &&
        Decides(all, any, r);
      AutoVerdictsOnly(x, p.allOf, attrs, all);
      AutoVerdictsOnly(x, p.anyOf, attrs, any);
    }
  }

  lemma ModelsDecidesMeaning(x: Text, p: RulePredicate, attrs: Attributes, r: Verdict)
    requires Decides(ModelsVerdicts(x, p.allOf, attrs), ModelsVerdicts(x, p.anyOf, attrs), r)
    ensures ModelsPredicateMeans(x, p, attrs, r)
  {
    ModelsVerdictsMean(x, p.allOf, attrs);
    ModelsVerdictsMean(x, p.anyOf, attrs);
  }

  /** The verdicts before `i` let a scan go on. */
  ghost predicate GoesOn(vs: seq<Verdict>, going: bool, i: int) {
    0 <= i <= |vs| && forall j :: 0 <= j < i ==> vs[j] == Ok(going)
  }

  /** A scan ran through, or stopped at `at` with that verdict. */
  ghost predicate Scanned(vs: seq<Verdict>, going: bool, r: Verdict, at: int) {
    if r == Ok(going) then GoesOn(vs, going, |vs|) else GoesOn(vs, going, at) && at < |vs| && r == vs[at]
  }

  lemma ScanMeans(vs: seq<Verdict>, going: bool, r: Verdict, at: int)
    requires Scanned(vs, going, r, at)
    ensures r == Ok(going) <==> RunsThrough(vs, going)
    ensures r != Ok(going) ==> exists i :: StopsAt(vs, going, i) && r == vs[i]
  {
    if r != Ok(going) {
      assert StopsAt(vs, going, at);
    }
  }

  lemma ScanOn(vs: seq<Verdict>, going: bool, i: int, v: Verdict)
    requires GoesOn(vs, going, i) && i < |vs| && v == vs[i]
    ensures if v == Ok(going) then GoesOn(vs, going, i + 1) else Scanned(vs, going, v, i)
  {
  }

  /** The two loops of `RulePredicate.Evaluate` in package models. */
  method ModelsScan(x: Text, cs: seq<Condition>, attrs: Attributes, going: bool) returns (r: Verdict, ghost at: int)
    ensures Scanned(ModelsVerdicts(x, cs, attrs), going, r, at)
  {
    ghost var vs := ModelsVerdicts(x, cs, attrs);
    at := 0;
    for i := 0 to |cs|
      invariant at == i && GoesOn(vs, going, i)
    {
      VerdictsAt(x, cs, attrs, i);
      r := ModelsCondition(x, cs[i], attrs);
      ScanOn(vs, going, i, r);
      if r != Ok(going) {
        return;
      }
      at := at + 1;
    }
    r := Ok(going);
  }

  /** `RulePredicate.Evaluate` of package models. */
  method ModelsEvaluate(x: Text, p: RulePredicate, attrs: Attributes) returns (r: Verdict)
    ensures ModelsPredicateMeans(x, p, attrs, r)
    ensures Decides(ModelsVerdicts(x, p.allOf, attrs), ModelsVerdicts(x, p.anyOf, attrs), r)
  {
    ghost var at;
    r, at := ModelsScan(x, p.allOf, attrs, true);
    ScanMeans(ModelsVerdicts(x, p.allOf, attrs), true, r, at);
    if r == Ok(true) && |p.anyOf| > 0 {
      r, at := ModelsScan(x, p.anyOf, attrs, false);
      ScanMeans(ModelsVerdicts(x, p.anyOf, attrs), false, r, at);
    }
    ModelsDecidesMeaning(x, p, attrs, r);
  }

  class PredicateEvaluator {
    const text: Text
    const maxEntries: nat
    var cache: Cache
    var hits: nat
    var misses: nat
    /** Every acceptable pattern looked up since the cache was empty, in order. */
    ghost var uses: seq<string>

    /** Map and list agree, and the list is the most recently used part of the trace. */
    ghost predicate Valid() reads this {
      && 1 <= maxEntries
      && CacheInv(cache, text.accepts, maxEntries, uses)
      && hits + misses == |uses|
    }

    constructor (text: Text)
      ensures Valid() && this.text == text && maxEntries == 100 && uses == []
    {
      this.text := text;
      maxEntries := 100;
      cache := Cache(map[], [], 0);
      hits, misses, uses := 0, 0, [];
    }

    /** The critical section of the slow path: double check, evict the back at capacity, push to the front. */
    method InsertCompiled(pattern: string, compiled: Regex) returns (re: Regex)
      modifies `cache, `hits, `misses
      ensures cache == Insert(old(cache), maxEntries, pattern, compiled)
      ensures hits + misses == old(hits + misses) + 1
      ensures re == if pattern in old(cache.entries) then old(cache.entries)[pattern].pattern else compiled
    {
      if pattern in cache.entries {
        hits := hits + 1;
        cache := Touch(cache, cache.entries[pattern]);
        return cache.entries[pattern].pattern;
      }
      misses := misses + 1;
      if |cache.list| >= maxEntries && |cache.list| > 0 {
        cache := Evict(cache);
      }
      cache := Push(cache, pattern, compiled);
      re := compiled;
    }

    /** Fast path and slow path, run without interference. */
    method GetCompiledRegex(pattern: string) returns (re: Option<Regex>)
      requires Valid()
      modifies this
      ensures Valid()
      ensures re == Compile(text.accepts, pattern)
      ensures uses == if text.accepts(pattern) then old(uses) + [pattern] else old(uses)
      ensures re.None? ==> cache == old(cache)
    {
      if text.accepts(pattern) {
        LookupKeepsInv(cache, text.accepts, maxEntries, uses, pattern);
        uses := uses + [pattern];
      } else {
        OnlyAcceptedCached(cache, text.accepts, pattern);
      }
      if pattern in cache.entries {
        var entry := cache.entries[pattern];
        hits := hits + 1;
        cache := Touch(cache, entry);
        return Some(entry.pattern);
      }
      re := Compile(text.accepts, pattern);
      if re.Some? {
        var inserted := InsertCompiled(pattern, re.value);
        re := Some(inserted);
      }
    }

    method EvalCondition(c: Condition, attrs: Attributes) returns (r: Verdict)
      requires Valid()
      modifies this
      ensures Valid() && r == AutoCondition(text, c, attrs)
      ensures AutoMeans(text, c, attrs, r)
    {
      AutoConditionMeans(text, c, attrs, AutoCondition(text, c, attrs));
      var fieldVal := Get(attrs, c.field);
      if fieldVal == Nil {
        return Ok(false);
      }
      if c.operator == "regex" {
        if !fieldVal.Str? || !c.value.Str? {
          return Err;
        }
        var re := GetCompiledRegex(c.value.s);
        return if re.None? then Err else Ok(text.matches(re.value.source, fieldVal.s));
      }
      return AutoCondition(text, c, attrs);
    }

    /** A loop over conditions that goes on while the verdict is `going`: allOf with true, anyOf with
        false. It runs through, or stops at the first other verdict, which decides. */
    method Scan(cs: seq<Condition>, attrs: Attributes, going: bool) returns (r: Verdict, ghost at: int)
      requires Valid()
      modifies this
      ensures Valid()
      ensures Scanned(AutoVerdicts(text, cs, attrs), going, r, at)
    {
      ghost var vs := AutoVerdicts(text, cs, attrs);
      at := 0;
      for i := 0 to |cs|
        invariant Valid() && at == i && GoesOn(vs, going, i)
      {
        VerdictsAt(text, cs, attrs, i);
        r := EvalCondition(cs[i], attrs);
        ScanOn(vs, going, i, r);
        if r != Ok(going) {
          return;
        }
        at := at + 1;
      }
      r := Ok(going);
    }

    /** From any cache state the verdict and error status are those of compiling afresh. */
    method Evaluate(p: RulePredicate, attrs: Attributes) returns (r: Verdict)
      requires Valid()
      modifies this
      ensures Valid()
      ensures AutoPredicateMeans(text, p, attrs, r)
      ensures Decides(AutoVerdicts(text, p.allOf, attrs), AutoVerdicts(text, p.anyOf, attrs), r)
    {
      ghost var at;
      r, at := Scan(p.allOf, attrs, true);
      ScanMeans(AutoVerdicts(text, p.allOf, attrs), true, r, at);
      if r == Ok(true) && |p.anyOf| > 0 {
        r, at := Scan(p.anyOf, attrs, false);
        ScanMeans(AutoVerdicts(text, p.anyOf, attrs), false, r, at);
      }
      AutoMeaningIff(text, p, attrs, r);
    }

    method ResetCache()
      modifies this
      requires 1 <= maxEntries
      ensures Valid() && uses == [] && hits == 0 && misses == 0
    {
      cache := Cache(map[], [], 0);
      hits, misses, uses := 0, 0, [];
    }
  }
}
