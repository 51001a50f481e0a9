/** The LRU cache of compiled patterns in classification/internal/auto/predicate.go: the map and the
    linked list under `getCompiledRegex`, cut at its lock boundaries. */
module RegexCaches {
  import opened Collections

  /** A compiled pattern; compiling is a function of the source text. */
  datatype Regex = Regex(source: string)

  /** A list element: its identity and the pattern it stands for. */
  datatype Elem = Elem(id: nat, value: string)

  datatype Entry = Entry(pattern: Regex, elem: nat)

  /** Map, list (front first) and the next element identity. */
  datatype Cache = Cache(entries: map<string, Entry>, list: seq<Elem>, next: nat)

  /** Which patterns `regexp.Compile` accepts. */
  type Accepts = string -> bool

  function Compile(ok: Accepts, pattern: string): Option<Regex> {
    if ok(pattern) then Some(Regex(pattern)) else None
  }

  function Values(list: seq<Elem>): (r: seq<string>)
    ensures |r| == |list|
  {
    if list == [] then [] else [list[0].value] + Values(list[1..])
  }

  /** The list without the element of an identity. */
  function Drop(list: seq<Elem>, id: nat): seq<Elem> {
    if list == [] then []
    else if list[0].id == id then list[1..]
    else [list[0]] + Drop(list[1..], id)
  }

  function Find(list: seq<Elem>, id: nat): Option<Elem> {
    if list == [] then None
    else if list[0].id == id then Some(list[0])
    else Find(list[1..], id)
  }

  /** `list.MoveToFront`: an element that has been removed from the list stays out of it. */
  function MoveToFront(list: seq<Elem>, id: nat): seq<Elem> {
    var e := Find(list, id);
    if e.None? then list else [e.value] + Drop(list, id)
  }

  function Touch(c: Cache, e: Entry): Cache {
    c.(list := MoveToFront(c.list, e.elem))
  }

  /** `delete(regexCache, oldest)` and `lruList.Remove(oldest)` on the back of a non-empty list. */
  function Evict(c: Cache): Cache
    requires c.list != []
  {
    var n := |c.list| - 1;
    c.(entries := c.entries - {c.list[n].value}, list := c.list[..n])
  }

  function Push(c: Cache, pattern: string, re: Regex): Cache {
    Cache(c.entries[pattern := Entry(re, c.next)], [Elem(c.next, pattern)] + c.list, c.next + 1)
  }

  /** The slow path under the write lock: double check, evict the back at capacity, push to the front. */
  function Insert(c: Cache, max: nat, pattern: string, re: Regex): Cache {
    if pattern in c.entries then Touch(c, c.entries[pattern])
    else Push(if |c.list| >= max && |c.list| > 0 then Evict(c) else c, pattern, re)
  }

  // ---------------------------------------------------------------------------
  // Agreement of map and list
  // ---------------------------------------------------------------------------

  ghost predicate IdsDistinct(list: seq<Elem>) {
    forall i, j :: 0 <= i < j < |list| ==> list[i].id != list[j].id
  }

  /** A list element and the map entry of its pattern name each other. */
  ghost predicate Linked(c: Cache, e: Elem) {
    e.id < c.next && e.value in c.entries && c.entries[e.value].elem == e.id
  }

  /** The map entry of a pattern is its own compilation and has an element in the list. */
  ghost predicate Bound(c: Cache, ok: Accepts, p: string)
    requires p in c.entries
  {
    ok(p) && c.entries[p].pattern == Regex(p) && Elem(c.entries[p].elem, p) in c.list
  }

  /** Map and list hold the same patterns, each once, each bound to its own compilation. */
  ghost predicate Coherent(c: Cache, ok: Accepts) {
    && IdsDistinct(c.list)
    && (forall e :: e in c.list ==> Linked(c, e))
    && (forall p :: p in c.entries ==> Bound(c, ok, p))
  }

  lemma ConsWithout(x: Elem, rest: seq<Elem>, i: int)
    requires 0 <= i < |rest|
    ensures ([x] + rest)[..i + 1] + ([x] + rest)[i + 2..] == [x] + (rest[..i] + rest[i + 1..])
  {
  }

  lemma FindDropStep(x: Elem, rest: seq<Elem>, id: nat, i: int)
    requires x.id != id && 0 <= i < |rest| && Drop(rest, id) == rest[..i] + rest[i + 1..]
    ensures Drop([x] + rest, id) == ([x] + rest)[..i + 1] + ([x] + rest)[i + 2..]
  {
    assert ([x] + rest)[1..] == rest;
    ConsWithout(x, rest, i);
  }

  lemma {:induction false} FindNone(list: seq<Elem>, id: nat, j: int)
    requires Find(list, id).None? && 0 <= j < |list|
    ensures list[j].id != id
  {
    if j > 0 {
      FindNone(list[1..], id, j - 1);
    }
  }

  lemma {:induction false} FindDrop(list: seq<Elem>, id: nat) returns (i: int)
    ensures Find(list, id).None? ==> forall j :: 0 <= j < |list| ==> list[j].id != id
    ensures Find(list, id).Some? ==>
      && 0 <= i < |list| && list[i].id == id && Find(list, id).value == list[i]
      && Drop(list, id) == list[..i] + list[i + 1..]
  {
    i := 0;
    if Find(list, id).None? {
      forall j | 0 <= j < |list| ensures list[j].id != id {
        FindNone(list, id, j);
      }
    } else if list[0].id != id {
      i := FindDrop(list[1..], id);
      FindDropStep(list[0], list[1..], id, i);
      assert list == [list[0]] + list[1..];
      i := i + 1;
    }
  }

  lemma MovedMembers(list: seq<Elem>, id: nat)
    ensures |MoveToFront(list, id)| == |list|
    ensures forall e :: e in MoveToFront(list, id) <==> e in list
  {
    var i := FindDrop(list, id);
    if Find(list, id).Some? {
      assert list == list[..i] + [list[i]] + list[i + 1..];
    }
  }

  lemma MovedIds(list: seq<Elem>, id: nat)
    requires IdsDistinct(list)
    ensures IdsDistinct(MoveToFront(list, id))
  {
    var i := FindDrop(list, id);
    var l := MoveToFront(list, id);
    if Find(list, id).Some? {
      forall a, b | 0 <= a < b < |l| ensures l[a].id != l[b].id {
        var a0 := if a == 0 then i else if a <= i then a - 1 else a;
        var b0 := if b <= i then b - 1 else b;
        assert l[a] == list[a0] && l[b] == list[b0] && a0 != b0;
      }
    }
  }

  lemma MovedCoherent(c: Cache, ok: Accepts, id: nat)
    requires Coherent(c, ok)
    ensures Coherent(c.(list := MoveToFront(c.list, id)), ok)
  {
    var t := c.(list := MoveToFront(c.list, id));
    MovedMembers(c.list, id);
    MovedIds(c.list, id);
    forall e | e in t.list ensures Linked(t, e) {
      assert Linked(c, e);
    }
    forall p | p in t.entries ensures Bound(t, ok, p) {
      assert Bound(c, ok, p);
    }
  }

  lemma EvictedCoherent(c: Cache, ok: Accepts)
    requires Coherent(c, ok) && c.list != []
    ensures Coherent(Evict(c), ok)
  {
    var n, t := |c.list| - 1, Evict(c);
    assert Linked(c, c.list[n]);
    forall e | e in t.list ensures Linked(t, e) {
      var i :| 0 <= i < n && c.list[i] == e;
      assert Linked(c, c.list[i]) && c.list[i].id != c.list[n].id;
    }
    forall p | p in t.entries ensures Bound(t, ok, p) {
      assert Bound(c, ok, p);
      MemberSplit(c.list, Elem(c.entries[p].elem, p));
    }
  }

  lemma PushedCoherent(c: Cache, ok: Accepts, pattern: string)
    requires Coherent(c, ok) && ok(pattern) && pattern !in c.entries
    ensures Coherent(Push(c, pattern, Regex(pattern)), ok)
  {
    var front, t := Elem(c.next, pattern), Push(c, pattern, Regex(pattern));
    forall i | 0 <= i < |c.list| ensures c.list[i].id < c.next {
      assert Linked(c, c.list[i]);
    }
    forall e | e in t.list ensures Linked(t, e) {
      if e != front {
        assert Linked(c, e);
      }
    }
    forall p | p in t.entries ensures Bound(t, ok, p) {
      if p == pattern {
        assert t.list[0] == front;
      } else {
        assert Bound(c, ok, p);
      }
    }
  }

  lemma MissCoherent(c: Cache, ok: Accepts, max: nat, pattern: string)
    requires Coherent(c, ok) && ok(pattern) && pattern !in c.entries
    ensures Coherent(Insert(c, max, pattern, Regex(pattern)), ok)
  {
    if |c.list| >= max && |c.list| > 0 {
      EvictedCoherent(c, ok);
      PushedCoherent(Evict(c), ok, pattern);
    } else {
      PushedCoherent(c, ok, pattern);
    }
  }

  lemma InsertSize(c: Cache, max: nat, pattern: string, re: Regex)
    requires 1 <= max && |c.list| <= max
    ensures |Insert(c, max, pattern, re).list| <= max
  {
    if pattern in c.entries {
      MovedMembers(c.list, c.entries[pattern].elem);
    }
  }

  /** Inserting keeps map and list in agreement and within capacity. */
  lemma InsertCoherent(c: Cache, ok: Accepts, max: nat, pattern: string)
    requires Coherent(c, ok) && ok(pattern) && 1 <= max && |c.list| <= max
    ensures var t := Insert(c, max, pattern, Regex(pattern)); Coherent(t, ok) && |t.list| <= max
  {
    InsertSize(c, max, pattern, Regex(pattern));
    if pattern in c.entries {
      MovedCoherent(c, ok, c.entries[pattern].elem);
    } else {
      MissCoherent(c, ok, max, pattern);
    }
  }

  // ---------------------------------------------------------------------------
  // Many goroutines
  // ---------------------------------------------------------------------------

  /** Where a call of `getCompiledRegex` is between two critical sections: it holds an entry found under
      the read lock (which others may evict meanwhile), or a pattern it missed, or its own compilation. */
  datatype Call =
    | Found(pattern: string, entry: Entry)
    | Missed(pattern: string)
    | Compiled(pattern: string, re: Regex)

  datatype Step =
    | Lookup(t: nat, pattern: string)
    | MoveFound(t: nat)
    | CompileMissed(t: nat)
    | InsertCompiled(t: nat)

  /** `answers` lists the finished calls with what they returned; None is the compile error. */
  datatype Shared = Shared(cache: Cache, calls: map<nat, Call>, answers: seq<(string, Option<Regex>)>)

  function Next(s: Shared, ok: Accepts, max: nat, step: Step): Shared {
    match step
    case Lookup(t, p) =>
      if t in s.calls then s
      else s.(calls := s.calls[t := if p in s.cache.entries then Found(p, s.cache.entries[p]) else Missed(p)])
    case MoveFound(t) =>
      if t !in s.calls || !s.calls[t].Found? then s
      else
        Shared(Touch(s.cache, s.calls[t].entry), s.calls - {t},
               s.answers + [(s.calls[t].pattern, Some(s.calls[t].entry.pattern))])
    case CompileMissed(t) =>
      if t !in s.calls || !s.calls[t].Missed? then s
      else
        var p := s.calls[t].pattern;
        var re := Compile(ok, p);
        if re.Some? then s.(calls := s.calls[t := Compiled(p, re.value)])
        else s.(calls := s.calls - {t}, answers := s.answers + [(p, None)])
    case InsertCompiled(t) =>
      if t !in s.calls || !s.calls[t].Compiled? then s
      else
        var p, re := s.calls[t].pattern, s.calls[t].re;
        Shared(Insert(s.cache, max, p, re), s.calls - {t},
               s.answers + [(p, Some(if p in s.cache.entries then s.cache.entries[p].pattern else re))])
  }

  /** Any interleaving of any calls; a step that is not due changes nothing. */
  function Run(ok: Accepts, max: nat, steps: seq<Step>): Shared {
    if steps == [] then Shared(Cache(map[], [], 0), map[], [])
    else Next(Run(ok, max, steps[..|steps| - 1]), ok, max, steps[|steps| - 1])
  }

  /** A call whose steps no other call gets between. */
  function RunAlone(s: Shared, ok: Accepts, max: nat, t: nat, p: string): Shared {
    var looked := Next(s, ok, max, Lookup(t, p));
    if p in s.cache.entries then Next(looked, ok, max, MoveFound(t))
    else Next(Next(looked, ok, max, CompileMissed(t)), ok, max, InsertCompiled(t))
  }

  /** Run alone a call is one lookup: a hit moves its pattern to the front, a miss inserts what it compiles, a
      pattern that does not compile changes nothing, and each returns the pattern's own compilation. */
  lemma AloneIsOneLookup(s: Shared, ok: Accepts, max: nat, t: nat, p: string)
    requires Coherent(s.cache, ok) && t !in s.calls
    ensures var r := RunAlone(s, ok, max, t, p);
      && r.calls == s.calls && r.answers == s.answers + [(p, if ok(p) then Some(Regex(p)) else None)]
      && r.cache == if ok(p) then Insert(s.cache, max, p, Regex(p)) else s.cache
  {
    if p in s.cache.entries {
      assert Bound(s.cache, ok, p);
      assert s.calls[t := Found(p, s.cache.entries[p])] - {t} == s.calls;
    } else if ok(p) {
      assert s.calls[t := Missed(p)][t := Compiled(p, Regex(p))] - {t} == s.calls;
    } else {
      assert s.calls[t := Missed(p)] - {t} == s.calls;
    }
  }

  ghost predicate CallSound(c: Call, ok: Accepts) {
    match c
    case Found(p, e) => ok(p) && e.pattern == Regex(p)
    case Missed(_) => true
    case Compiled(p, re) => ok(p) && re == Regex(p)
  }

  ghost predicate SharedInv(s: Shared, ok: Accepts, max: nat) {
    && Coherent(s.cache, ok) && |s.cache.list| <= max
    && (forall t :: t in s.calls ==> CallSound(s.calls[t], ok))
    && (forall i :: 0 <= i < |s.answers| ==> s.answers[i].1 == Compile(ok, s.answers[i].0))
  }

  lemma StepKeepsInv(s: Shared, ok: Accepts, max: nat, step: Step)
    requires 1 <= max && SharedInv(s, ok, max)
    ensures SharedInv(Next(s, ok, max, step), ok, max)
  {
    var t := step.t;
    if Next(s, ok, max, step) != s {
      match step
      case Lookup(_, p) =>
        assert p in s.cache.entries ==> Bound(s.cache, ok, p);
      case MoveFound(_) =>
        MovedCoherent(s.cache, ok, s.calls[t].entry.elem);
        MovedMembers(s.cache.list, s.calls[t].entry.elem);
      case CompileMissed(_) =>
      case InsertCompiled(_) =>
        var p := s.calls[t].pattern;
        assert CallSound(s.calls[t], ok);
        assert p in s.cache.entries ==> Bound(s.cache, ok, p);
        InsertCoherent(s.cache, ok, max, p);
    }
  }

  /** Under every interleaving map and list agree, within capacity, and every call that has returned
      gave what compiling its pattern afresh gives, evicted entries included. */
  lemma {:induction false} AlwaysCoherent(ok: Accepts, max: nat, steps: seq<Step>)
    requires 1 <= max
    ensures SharedInv(Run(ok, max, steps), ok, max)
  {
    if steps != [] {
      AlwaysCoherent(ok, max, steps[..|steps| - 1]);
      StepKeepsInv(Run(ok, max, steps[..|steps| - 1]), ok, max, steps[|steps| - 1]);
    }
  }

  // ---------------------------------------------------------------------------
  // One goroutine: the list order is the recency of use
  // ---------------------------------------------------------------------------

  /** The distinct patterns of a trace of successful lookups, the most recently used first. */
  function Recent(uses: seq<string>): seq<string> {
    if uses == [] then []
    else
      var p := uses[|uses| - 1];
      [p] + Unseen(Recent(uses[..|uses| - 1]), [p])
  }

  /** The index of a pattern's last use, -1 when unused. */
  function LastUse(uses: seq<string>, p: string): int {
    if uses == [] then -1
    else if uses[|uses| - 1] == p then |uses| - 1
    else LastUse(uses[..|uses| - 1], p)
  }

  function Take(s: seq<string>, n: nat): seq<string> { if |s| <= n then s else s[..n] }

  lemma {:induction false} RecentMember(uses: seq<string>, p: string)
    ensures p in Recent(uses) <==> p in uses
    ensures p in uses <==> LastUse(uses, p) >= 0
    ensures LastUse(uses, p) < |uses|
  {
    if uses != [] {
      var last := uses[|uses| - 1];
      RecentMember(uses[..|uses| - 1], p);
      UnseenMember(Recent(uses[..|uses| - 1]), [last], p);
      MemberSplit(uses, p);
    }
  }

  lemma {:induction false} RecentDistinct(uses: seq<string>)
    ensures Distinct(Recent(uses))
  {
    if uses != [] {
      var init, last := uses[..|uses| - 1], uses[|uses| - 1];
      RecentDistinct(init);
      UnseenDistinct(Recent(init), [last]);
      UnseenMember(Recent(init), [last], last);
    }
  }

  lemma UnseenAbsent(s: seq<string>, p: string)
    requires p !in s
    ensures Unseen(s, [p]) == s
  {
    UnseenNone(s, [p]);
  }

  /** Taking an element out keeps the order of the others. */
  lemma UnseenKeepsOrder(s: seq<string>, p: string, i: int, j: int) returns (i0: int, j0: int)
    requires Distinct(s) && 0 <= i < j < |Unseen(s, [p])|
    ensures 0 <= i0 < j0 < |s| && s[i0] == Unseen(s, [p])[i] && s[j0] == Unseen(s, [p])[j]
  {
    if p in s {
      var m :| 0 <= m < |s| && s[m] == p;
      UnseenOne(s, m);
      i0, j0 := if i < m then i else i + 1, if j < m then j else j + 1;
    } else {
      UnseenAbsent(s, p);
      i0, j0 := i, j;
    }
  }

  /** `Recent` is the order of last use. */
  lemma {:induction false} RecentOrder(uses: seq<string>, i: int, j: int)
    requires 0 <= i < j < |Recent(uses)|
    ensures LastUse(uses, Recent(uses)[i]) > LastUse(uses, Recent(uses)[j])
  {
    var init, p := uses[..|uses| - 1], uses[|uses| - 1];
    var r := Recent(init);
    var rest := Unseen(r, [p]);
    RecentDistinct(init);
    UnseenMember(r, [p], rest[j - 1]);
    RecentMember(init, rest[j - 1]);
    if i > 0 {
      UnseenMember(r, [p], rest[i - 1]);
      var i0, j0 := UnseenKeepsOrder(r, p, i - 1, j - 1);
      RecentOrder(init, i0, j0);
    }
  }

  /** What one successful lookup does to the patterns in list order. */
  function LruStep(values: seq<string>, max: nat, p: string): seq<string> {
    if p in values then [p] + Unseen(values, [p])
    else [p] + if |values| >= max && |values| > 0 then values[..|values| - 1] else values
  }

  lemma DistinctTake(r: seq<string>, max: nat)
    requires Distinct(r)
    ensures Distinct(Take(r, max))
  {
  }

  lemma TakeAround(p: string, a: seq<string>, b: seq<string>, max: nat)
    requires 1 + |a| <= max
    ensures Take([p] + (a + b), max) == [p] + (a + Take(b, max - 1 - |a|))
  {
  }

  lemma TakeMember(r: seq<string>, max: nat, m: int)
    requires 0 <= m < |r|
    ensures m < max ==> r[m] in Take(r, max) && Take(r, max)[m] == r[m]
  {
    if m < max {
      assert Take(r, max)[m] == r[m];
    }
  }

  lemma HitAround(r: seq<string>, max: nat, m: int)
    requires 0 <= m < |r| && m < max
    ensures var v := Take(r, max);
      [r[m]] + (v[..m] + v[m + 1..]) == Take([r[m]] + (r[..m] + r[m + 1..]), max)
  {
    var v := Take(r, max);
    assert v[..m] == r[..m];
    assert v[m + 1..] == Take(r[m + 1..], max - 1 - m);
    TakeAround(r[m], r[..m], r[m + 1..], max);
  }

  lemma MissAround(r: seq<string>, max: nat, m: int)
    requires 1 <= max <= m < |r|
    ensures [r[m]] + r[..max - 1] == Take([r[m]] + (r[..m] + r[m + 1..]), max)
  {
    var all := [r[m]] + (r[..m] + r[m + 1..]);
    assert all[..max] == [r[m]] + r[..max - 1];
  }

  lemma LruHitOnTake(r: seq<string>, max: nat, m: int)
    requires Distinct(r) && 0 <= m < |r| && m < max
    ensures [r[m]] + Unseen(Take(r, max), [r[m]]) == Take([r[m]] + Unseen(r, [r[m]]), max)
  {
    DistinctTake(r, max);
    TakeMember(r, max, m);
    UnseenOne(r, m);
    UnseenOne(Take(r, max), m);
    HitAround(r, max, m);
  }

  lemma LruMissOfOlder(r: seq<string>, max: nat, m: int)
    requires 1 <= max <= m < |r| && Distinct(r)
    ensures [r[m]] + Take(r, max)[..max - 1] == Take([r[m]] + Unseen(r, [r[m]]), max)
  {
    UnseenOne(r, m);
    MissAround(r, max, m);
    assert Take(r, max)[..max - 1] == r[..max - 1];
  }

  lemma LruMissOfNew(r: seq<string>, max: nat, p: string)
    requires 1 <= max
    ensures var v := Take(r, max);
      [p] + (if |v| >= max then v[..|v| - 1] else v) == Take([p] + r, max)
  {
  }

  lemma LruMissOnTake(r: seq<string>, max: nat, p: string)
    requires 1 <= max && Distinct(r) && p !in Take(r, max)
    ensures var v := Take(r, max);
      [p] + (if |v| >= max then v[..|v| - 1] else v) == Take([p] + Unseen(r, [p]), max)
  {
    if p in r {
      var m :| 0 <= m < |r| && r[m] == p;
      TakeMember(r, max, m);
      LruMissOfOlder(r, max, m);
    } else {
      UnseenAbsent(r, p);
      LruMissOfNew(r, max, p);
    }
  }

  /** The LRU step keeps the front of the whole recency order. */
  lemma LruStepOnTake(r: seq<string>, max: nat, p: string)
    requires 1 <= max && Distinct(r)
    ensures LruStep(Take(r, max), max, p) == Take([p] + Unseen(r, [p]), max)
  {
    if p in Take(r, max) {
      var m :| 0 <= m < |Take(r, max)| && Take(r, max)[m] == p;
      LruHitOnTake(r, max, m);
    } else {
      LruMissOnTake(r, max, p);
    }
  }

  lemma LruStepIsRecent(uses: seq<string>, max: nat, p: string)
    requires 1 <= max
    ensures LruStep(Take(Recent(uses), max), max, p) == Take(Recent(uses + [p]), max)
  {
    assert (uses + [p])[..|uses|] == uses;
    RecentDistinct(uses);
    LruStepOnTake(Recent(uses), max, p);
  }

  lemma {:induction false} ValuesAt(list: seq<Elem>, i: int)
    requires 0 <= i < |list|
    ensures Values(list)[i] == list[i].value
  {
    if i > 0 {
      ValuesAt(list[1..], i - 1);
    }
  }

  lemma ValuesCons(e: Elem, list: seq<Elem>)
    ensures Values([e] + list) == [e.value] + Values(list)
  {
    assert ([e] + list)[1..] == list;
  }

  lemma ValuesAppend(a: seq<Elem>, b: seq<Elem>)
    ensures Values(a + b) == Values(a) + Values(b)
  {
    forall i | 0 <= i < |a + b| ensures Values(a + b)[i] == (Values(a) + Values(b))[i] {
      ValuesAt(a + b, i);
      if i < |a| {
        ValuesAt(a, i);
      } else {
        ValuesAt(b, i - |a|);
      }
    }
  }

  lemma CoherentValues(c: Cache, ok: Accepts, p: string)
    requires Coherent(c, ok)
    ensures Distinct(Values(c.list))
    ensures p in Values(c.list) <==> p in c.entries
  {
    forall i, j | 0 <= i < j < |c.list| ensures Values(c.list)[i] != Values(c.list)[j] {
      ValuesAt(c.list, i);
      ValuesAt(c.list, j);
      assert Linked(c, c.list[i]) && Linked(c, c.list[j]);
    }
    if p in c.entries {
      assert Bound(c, ok, p);
      var i :| 0 <= i < |c.list| && c.list[i] == Elem(c.entries[p].elem, p);
      ValuesAt(c.list, i);
    }
    if p in Values(c.list) {
      var i :| 0 <= i < |c.list| && Values(c.list)[i] == p;
      ValuesAt(c.list, i);
      assert Linked(c, c.list[i]);
    }
  }

  lemma TouchIsLruStep(c: Cache, ok: Accepts, max: nat, p: string)
    requires Coherent(c, ok) && p in c.entries
    ensures Values(Touch(c, c.entries[p]).list) == LruStep(Values(c.list), max, p)
  {
    CoherentValues(c, ok, p);
    var id := c.entries[p].elem;
    var i := FindDrop(c.list, id);
    assert Bound(c, ok, p);
    var m :| 0 <= m < |c.list| && c.list[m] == Elem(id, p);
    assert i == m;
    ValuesAt(c.list, i);
    UnseenOne(Values(c.list), i);
    SplitValues(c.list, i);
    ValuesAppend(c.list[..i], c.list[i + 1..]);
    ValuesCons(c.list[i], Drop(c.list, id));
  }

  /** One lookup of an acceptable pattern, hit or miss, is an LRU step on the list. */
  lemma InsertIsLruStep(c: Cache, ok: Accepts, max: nat, p: string)
    requires Coherent(c, ok) && ok(p) && 1 <= max
    ensures Values(Insert(c, max, p, Regex(p)).list) == LruStep(Values(c.list), max, p)
  {
    if p in c.entries {
      TouchIsLruStep(c, ok, max, p);
    } else {
      CoherentValues(c, ok, p);
      var n := |c.list|;
      if n >= max {
        SplitValues(c.list, n - 1);
        ValuesCons(Elem(c.next, p), c.list[..n - 1]);
      } else {
        ValuesCons(Elem(c.next, p), c.list);
      }
    }
  }

  lemma SplitValues(list: seq<Elem>, i: int)
    requires 0 <= i < |list|
    ensures Values(list[..i]) == Values(list)[..i] && Values(list[i + 1..]) == Values(list)[i + 1..]
  {
    assert list == list[..i] + list[i..] && list == list[..i + 1] + list[i + 1..];
    ValuesAppend(list[..i], list[i..]);
    ValuesAppend(list[..i + 1], list[i + 1..]);
  }

  ghost predicate Lists(list: seq<Elem>, p: string) {
    exists i :: 0 <= i < |list| && list[i].value == p
  }

  /** The list is full, and `p` was last used before everything in it. */
  ghost predicate Outlived(list: seq<Elem>, max: nat, uses: seq<string>, p: string) {
    |list| == max && forall i :: 0 <= i < |list| ==> LastUse(uses, p) < LastUse(uses, list[i].value)
  }

  /** The list is in the order of last use, the latest first, and only what it has outlived is missing. */
  ghost predicate Tracks(list: seq<Elem>, max: nat, uses: seq<string>) {
    && (forall i, j :: 0 <= i < j < |list| ==> LastUse(uses, list[i].value) > LastUse(uses, list[j].value))
    && (forall i :: 0 <= i < |list| ==> list[i].value in uses)
    && (forall p :: p in uses ==> Lists(list, p) || Outlived(list, max, uses, p))
  }

  /** Map and list agree within capacity, in the order of last use. */
  ghost predicate CacheInv(c: Cache, ok: Accepts, max: nat, uses: seq<string>) {
    Coherent(c, ok) && |c.list| <= max && Tracks(c.list, max, uses)
  }

  /** Two patterns of the reference order, by index. */
  lemma RecentAt(uses: seq<string>, p: string) returns (m: int)
    requires p in uses
    ensures 0 <= m < |Recent(uses)| && Recent(uses)[m] == p
  {
    RecentMember(uses, p);
    m :| 0 <= m < |Recent(uses)| && Recent(uses)[m] == p;
  }

  lemma RecentIndexUnique(uses: seq<string>, i: int, j: int)
    requires 0 <= i < |Recent(uses)| && 0 <= j < |Recent(uses)| && Recent(uses)[i] == Recent(uses)[j]
    ensures i == j
  {
    RecentDistinct(uses);
  }

  /** Entry i of a tracked list is entry i of the reference order. */
  lemma {:induction false} TracksFront(list: seq<Elem>, max: nat, uses: seq<string>, i: int)
    requires Tracks(list, max, uses) && 0 <= i < |list|
    ensures i < |Recent(uses)| && Recent(uses)[i] == list[i].value
    decreases i
  {
    var r := Recent(uses);
    var m := RecentAt(uses, list[i].value);
    forall k | 0 <= k < i ensures k < |r| && r[k] == list[k].value {
      TracksFront(list, max, uses, k);
    }
    if m > i {
      RecentOrder(uses, i, m);
      RecentMember(uses, r[i]);
      assert !Outlived(list, max, uses, r[i]);
      var j :| 0 <= j < |list| && list[j].value == r[i];
      if j < i {
        RecentIndexUnique(uses, i, j);
      }
    }
  }

  lemma TracksShort(list: seq<Elem>, max: nat, uses: seq<string>)
    requires Tracks(list, max, uses) && |list| < max
    ensures |Recent(uses)| <= |list|
  {
    var r, n := Recent(uses), |list|;
    if n < |r| {
      RecentMember(uses, r[n]);
      assert !Outlived(list, max, uses, r[n]);
      var j :| 0 <= j < |list| && list[j].value == r[n];
      TracksFront(list, max, uses, j);
      RecentIndexUnique(uses, j, n);
    }
  }

  lemma TracksLength(list: seq<Elem>, max: nat, uses: seq<string>)
    requires Tracks(list, max, uses) && |list| <= max
    ensures |list| == |Take(Recent(uses), max)|
  {
    if list != [] {
      TracksFront(list, max, uses, |list| - 1);
    }
    if |list| < max {
      TracksShort(list, max, uses);
    }
  }

  lemma TracksWhole(list: seq<Elem>, max: nat, uses: seq<string>)
    requires Tracks(list, max, uses) && |list| <= max
    ensures Values(list) == Take(Recent(uses), max)
  {
    TracksLength(list, max, uses);
    forall i | 0 <= i < |list| ensures Values(list)[i] == Take(Recent(uses), max)[i] {
      TracksFront(list, max, uses, i);
      ValuesAt(list, i);
    }
  }

  lemma FrontTracks(list: seq<Elem>, max: nat, uses: seq<string>)
    requires Values(list) == Take(Recent(uses), max)
    ensures Tracks(list, max, uses)
  {
    var r := Recent(uses);
    forall i | 0 <= i < |list| ensures i < |r| && r[i] == list[i].value && list[i].value in uses {
      ValuesAt(list, i);
      RecentMember(uses, r[i]);
    }
    forall i, j | 0 <= i < j < |list| ensures LastUse(uses, list[i].value) > LastUse(uses, list[j].value) {
      RecentOrder(uses, i, j);
    }
    forall p | p in uses ensures Lists(list, p) || Outlived(list, max, uses, p) {
      var m := RecentAt(uses, p);
      if m < |list| {
        assert list[m].value == p;
      } else {
        forall i | 0 <= i < |list| ensures LastUse(uses, p) < LastUse(uses, list[i].value) {
          RecentOrder(uses, i, m);
        }
      }
    }
  }

  /** A list within capacity tracks the trace if and only if it is the recently used front of it. */
  lemma TracksIff(list: seq<Elem>, max: nat, uses: seq<string>)
    requires |list| <= max
    ensures Tracks(list, max, uses) <==> Values(list) == Take(Recent(uses), max)
  {
    if Tracks(list, max, uses) {
      TracksWhole(list, max, uses);
    }
    if Values(list) == Take(Recent(uses), max) {
      FrontTracks(list, max, uses);
    }
  }

  /** A lookup of an acceptable pattern, hit or miss, makes it the most recently used one. */
  lemma LookupKeepsInv(c: Cache, ok: Accepts, max: nat, uses: seq<string>, p: string)
    requires 1 <= max && CacheInv(c, ok, max, uses) && ok(p)
    ensures CacheInv(Insert(c, max, p, Regex(p)), ok, max, uses + [p])
    ensures p in c.entries ==> c.entries[p].pattern == Regex(p)
  {
    assert p in c.entries ==> Bound(c, ok, p);
    TracksIff(c.list, max, uses);
    InsertCoherent(c, ok, max, p);
    InsertIsLruStep(c, ok, max, p);
    LruStepIsRecent(uses, max, p);
    TracksIff(Insert(c, max, p, Regex(p)).list, max, uses + [p]);
  }

  lemma OnlyAcceptedCached(c: Cache, ok: Accepts, p: string)
    requires Coherent(c, ok) && !ok(p)
    ensures p !in c.entries
  {
    assert p in c.entries ==> Bound(c, ok, p);
  }

  /** What a cache evicts is gone, and was last used before everything it keeps. */
  lemma EvictsLeastRecentlyUsed(c: Cache, ok: Accepts, max: nat, uses: seq<string>, p: string)
    requires CacheInv(c, ok, max, uses) && c.list != [] && p in Evict(c).entries
    ensures var q := c.list[|c.list| - 1].value;
      q in c.entries && q !in Evict(c).entries && LastUse(uses, q) < LastUse(uses, p)
  {
    var n := |c.list| - 1;
    assert Linked(c, c.list[n]);
    assert Bound(c, ok, p);
    var i :| 0 <= i < |c.list| && c.list[i] == Elem(c.entries[p].elem, p);
    assert i < n;
  }
}
