/** What the card merge guarantees beyond the pointwise join: fixed points, times, uploads. */
module CrdtLaws {
  import opened Collections
  import opened KeyedMerge
  import opened Crdt

  lemma CardSidesKeepIds(dp: DateParse)
    ensures KeepsIds(CardSides(dp))
  {
  }

  // ---------------------------------------------------------------------------
  // Who wins
  // ---------------------------------------------------------------------------

  lemma JoinReconciles(dp: DateParse, l: LocalCard, s: Card)
    ensures Reconciled(dp, l, s, Join(dp, l, s))
  {
  }

  /** The i-th merged card: reconciled with the local card of its id where the server first names it. */
  lemma MergedReconciles(dp: DateParse, locals: seq<LocalCard>, server: seq<Card>, i: int)
    requires 0 <= i < |server|
    ensures var at, r, k := Index(LocalId, locals).at, Merged(dp, locals, server).cards, server[i].id;
      i < |r| &&
      if k in at && k !in Ids(CardId, server[..i]) then Reconciled(dp, at[k], server[i], r[i]) else r[i] == server[i]
  {
    var at, k := Index(LocalId, locals).at, server[i].id;
    ServerSideAt(CardSides(dp), at, server, i);
    if k in at {
      JoinReconciles(dp, at[k], server[i]);
    }
  }

  /** The card with id `k` after a merge, told from the two sides. */
  ghost predicate ReconciledAt(dp: DateParse, local: map<string, LocalCard>, server: map<string, Card>,
                               merged: map<string, Card>, k: string) {
    && (k in merged <==> k in local || k in server)
    && (k in server && k !in local ==> merged[k] == server[k])
    && (k in local && k !in server ==> merged[k] == local[k].card)
    && (k in local && k in server ==> Reconciled(dp, local[k], server[k], merged[k]))
  }

  lemma MergedReconciledAt(dp: DateParse, locals: seq<LocalCard>, server: seq<Card>, k: string)
    requires Distinct(Ids(CardId, server))
    ensures ReconciledAt(dp, Index(LocalId, locals).at, Index(CardId, server).at,
                         Index(CardId, Merged(dp, locals, server).cards).at, k)
  {
    CardSidesKeepIds(dp);
    MergedIndexIsJoin(CardSides(dp), locals, server, k);
    var local, remote := Index(LocalId, locals).at, Index(CardId, server).at;
    if k in local && k in remote {
      JoinReconciles(dp, local[k], remote[k]);
    }
  }

  /** The conflicts logged for a card. */
  function ConflictsFor(cs: seq<Conflict>, k: string): seq<Conflict> {
    if cs == [] then []
    else ConflictsFor(cs[..|cs| - 1], k) + if cs[|cs| - 1].cardId == k then [cs[|cs| - 1]] else []
  }

  lemma ConflictsForOneMore(cs: seq<Conflict>, c: Conflict, k: string)
    ensures ConflictsFor(cs + [c], k) == ConflictsFor(cs, k) + if c.cardId == k then [c] else []
  {
    assert (cs + [c])[..|cs|] == cs;
  }

  /** Exactly one entry for each unsynced decision the server list meets. */
  ghost predicate LogsAt(local: map<string, LocalCard>, server: map<string, Card>, cs: seq<Conflict>, k: string) {
    if k in local && k in server && local[k].dirty && local[k].decision.Some? && local[k].decision.value != ""
    then |ConflictsFor(cs, k)| == 1 && Logs(local[k], server[k], ConflictsFor(cs, k)[0])
    else ConflictsFor(cs, k) == []
  }

  lemma LogsOneMore(local: map<string, LocalCard>, server: map<string, Card>, cs: seq<Conflict>, s: Card, k: string)
    requires LogsAt(local, server, cs, k) && s.id !in server && (s.id in local ==> local[s.id].card.id == s.id)
    ensures LogsAt(local, server[s.id := s],
      cs + (if s.id in local && HasDecision(local[s.id]) then [ConflictOf(local[s.id], s)] else []), k)
  {
    if s.id in local && HasDecision(local[s.id]) {
      ConflictsForOneMore(cs, ConflictOf(local[s.id], s), k);
    } else {
      assert cs + [] == cs;
    }
  }

  lemma {:induction false} ConflictsLogged(at: map<string, LocalCard>, server: seq<Card>, k: string)
    requires Distinct(Ids(CardId, server)) && forall x :: x in at ==> at[x].card.id == x
    ensures LogsAt(at, Index(CardId, server).at, Conflicts(at, server), k)
  {
    if server != [] {
      var n, ids := |server| - 1, Ids(CardId, server);
      assert ids[..n] == Ids(CardId, server[..n]);
      DistinctInit(ids);
      ConflictsLogged(at, server[..n], k);
      IndexHas(CardId, server[..n], server[n].id);
      LogsOneMore(at, Index(CardId, server[..n]).at, Conflicts(at, server[..n]), server[n], k);
    }
  }

  lemma IndexedUnderOwnId(locals: seq<LocalCard>)
    ensures forall x :: x in Index(LocalId, locals).at ==> Index(LocalId, locals).at[x].card.id == x
  {
    forall x | x in Index(LocalId, locals).at ensures Index(LocalId, locals).at[x].card.id == x {
      var i := IndexKeepsLast(LocalId, locals, x);
    }
  }

  lemma ConflictsAreTheDecisions(dp: DateParse, locals: seq<LocalCard>, server: seq<Card>, k: string)
    requires Distinct(Ids(CardId, server))
    ensures LogsAt(Index(LocalId, locals).at, Index(CardId, server).at, Merged(dp, locals, server).conflicts, k)
  {
    IndexedUnderOwnId(locals);
    ConflictsLogged(Index(LocalId, locals).at, server, k);
  }

  // ---------------------------------------------------------------------------
  // Idempotence
  // ---------------------------------------------------------------------------

  /** A merged card put back as a local one, with the dirty flag and decision its id had. */
  function Refed(at: map<string, LocalCard>, c: Card): LocalCard {
    if c.id in at then at[c.id].(card := c) else LocalCard(c, 0, None, false, 0)
  }

  function Refeed(at: map<string, LocalCard>, cards: seq<Card>): (r: seq<LocalCard>)
    ensures |r| == |cards|
  {
    if cards == [] then [] else Refeed(at, cards[..|cards| - 1]) + [Refed(at, cards[|cards| - 1])]
  }

  lemma {:induction false} RefeedAt(at: map<string, LocalCard>, cards: seq<Card>, i: int)
    requires 0 <= i < |cards|
    ensures Refeed(at, cards)[i] == Refed(at, cards[i])
  {
    if i < |cards| - 1 {
      RefeedAt(at, cards[..|cards| - 1], i);
    }
  }

  lemma {:induction false} RefeedIds(at: map<string, LocalCard>, cards: seq<Card>)
    ensures Ids(LocalId, Refeed(at, cards)) == Ids(CardId, cards)
  {
    if cards != [] {
      var n := |cards| - 1;
      RefeedIds(at, cards[..n]);
      assert Refeed(at, cards)[..n] == Refeed(at, cards[..n]);
    }
  }

  /** Merging the merged cards with the same server list again gives the same list. */
  ghost predicate MergeIsFixed(dp: DateParse, locals: seq<LocalCard>, server: seq<Card>) {
    var once := Merged(dp, locals, server).cards;
    Merged(dp, Refeed(Index(LocalId, locals).at, once), server).cards == once
  }

  lemma JoinIdempotent(dp: DateParse, l: LocalCard, s: Card)
    ensures Join(dp, l.(card := Join(dp, l, s)), s) == Join(dp, l, s)
    ensures Join(dp, l.(card := s), s) == s
  {
  }

  /** One place of the second merge, for a server list without repeated ids. */
  lemma RemergedAt(dp: DateParse, locals: seq<LocalCard>, server: seq<Card>, i: int)
    requires Distinct(Ids(CardId, server)) && 0 <= i < |server|
    ensures
      var at, once := Index(LocalId, locals).at, Merged(dp, locals, server).cards;
      i < |once| && ServerSide(CardSides(dp), Index(LocalId, Refeed(at, once)).at, server)[i] == once[i]
  {
    var at, once := Index(LocalId, locals).at, Merged(dp, locals, server).cards;
    var again := Refeed(at, once);
    MergedIdsDistinctIff(CardSides(dp), locals, server);
    RefeedIds(at, once);
    RefeedAt(at, once, i);
    IndexOfDistinct(LocalId, again, i);
    ServerSideAt(CardSides(dp), at, server, i);
    ServerSideAt(CardSides(dp), Index(LocalId, again).at, server, i);
    IdsPrefix(CardId, server, i);
    IdsAt(CardId, server, i);
    if server[i].id in at {
      JoinIdempotent(dp, at[server[i].id], server[i]);
    } else {
      JoinIdempotent(dp, LocalCard(server[i], 0, None, false, 0), server[i]);
    }
  }

  lemma {:induction false} KeptSame(dp: DateParse, a: map<string, LocalCard>, b: map<string, LocalCard>,
                                    keys: seq<string>)
    requires forall i :: 0 <= i < |keys| ==> keys[i] in a && keys[i] in b && a[keys[i]].card == b[keys[i]].card
    ensures Kept(CardSides(dp), a, keys) == Kept(CardSides(dp), b, keys)
  {
    if keys != [] {
      KeptSame(dp, a, b, keys[..|keys| - 1]);
    }
  }

  /** The table the second merge starts from is keyed like the first merge's output. */
  lemma RefedKeys(dp: DateParse, locals: seq<LocalCard>, server: seq<Card>)
    requires Distinct(Ids(CardId, server))
    ensures
      var m, ids := Index(LocalId, locals), Ids(CardId, server);
      var again := Refeed(m.at, Merged(dp, locals, server).cards);
      && Distinct(Ids(LocalId, again))
      && Ids(LocalId, again) == ids + Unseen(m.keys, ids)
      && Index(LocalId, again).keys == ids + Unseen(m.keys, ids)
  {
    var m := Index(LocalId, locals);
    var once := Merged(dp, locals, server).cards;
    var again := Refeed(m.at, once);
    CardSidesKeepIds(dp);
    RefeedIds(m.at, once);
    MergedIds(CardSides(dp), locals, server);
    MergedIdsDistinctIff(CardSides(dp), locals, server);
    IndexKeys(LocalId, locals);
    IndexKeys(LocalId, again);
    FirstOccurrencesOfDistinct(Ids(LocalId, again));
  }

  /** The ids the second merge finds only locally are those the first one did. */
  lemma RemergedRest(dp: DateParse, locals: seq<LocalCard>, server: seq<Card>)
    requires Distinct(Ids(CardId, server))
    ensures
      var m, ids := Index(LocalId, locals), Ids(CardId, server);
      var again := Refeed(m.at, Merged(dp, locals, server).cards);
      Unseen(Index(LocalId, again).keys, ids) == Unseen(m.keys, ids)
  {
    var m, ids := Index(LocalId, locals), Ids(CardId, server);
    var rest := Unseen(m.keys, ids);
    RefedKeys(dp, locals, server);
    UnseenAppend(ids, rest, ids);
    UnseenAll(ids, ids);
    forall y | y in rest ensures y !in ids {
      UnseenMember(m.keys, ids, y);
    }
    UnseenNone(rest, ids);
  }

  lemma RestIsLocal(locals: seq<LocalCard>, ids: seq<string>, k: string)
    requires k in Unseen(Index(LocalId, locals).keys, ids)
    ensures k in Index(LocalId, locals).at && Index(LocalId, locals).at[k].card.id == k
  {
    IndexKeys(LocalId, locals);
    UnseenMember(Index(LocalId, locals).keys, ids, k);
    var j := IndexKeepsLast(LocalId, locals, k);
  }

  /** The tail of the merge holds the unmatched local cards. */
  lemma MergedTailAt(dp: DateParse, locals: seq<LocalCard>, server: seq<Card>, i: int)
    requires 0 <= i < |Unseen(Index(LocalId, locals).keys, Ids(CardId, server))|
    ensures
      var m, once := Index(LocalId, locals), MergedList(CardSides(dp), locals, server);
      var k := Unseen(m.keys, Ids(CardId, server))[i];
      && k in m.at && m.at[k].card.id == k
      && |server| + i < |once| && once[|server| + i] == m.at[k].card
  {
    var m := Index(LocalId, locals);
    var rest := Unseen(m.keys, Ids(CardId, server));
    forall k | k in rest ensures k in m.at {
      RestIsLocal(locals, Ids(CardId, server), k);
    }
    RestIsLocal(locals, Ids(CardId, server), rest[i]);
    KeptAt(CardSides(dp), m.at, rest, i);
  }

  lemma RefedIndexAt(at: map<string, LocalCard>, cards: seq<Card>, n: int, k: string)
    requires Distinct(Ids(LocalId, Refeed(at, cards)))
    requires 0 <= n < |cards| && k in at && at[k].card.id == k && cards[n] == at[k].card
    ensures k in Index(LocalId, Refeed(at, cards)).at && Index(LocalId, Refeed(at, cards)).at[k] == at[k]
  {
    RefeedAt(at, cards, n);
    IndexOfDistinct(LocalId, Refeed(at, cards), n);
  }

  lemma RemergedKeptAt(dp: DateParse, locals: seq<LocalCard>, server: seq<Card>, i: int)
    requires Distinct(Ids(CardId, server))
    requires 0 <= i < |Unseen(Index(LocalId, locals).keys, Ids(CardId, server))|
    ensures
      var m := Index(LocalId, locals);
      var again := Index(LocalId, Refeed(m.at, Merged(dp, locals, server).cards)).at;
      var k := Unseen(m.keys, Ids(CardId, server))[i];
      k in m.at && k in again && again[k].card == m.at[k].card
  {
    var m := Index(LocalId, locals);
    var once := MergedList(CardSides(dp), locals, server);
    MergedTailAt(dp, locals, server, i);
    RefedKeys(dp, locals, server);
    RefedIndexAt(m.at, once, |server| + i, Unseen(m.keys, Ids(CardId, server))[i]);
  }

  lemma RemergedKept(dp: DateParse, locals: seq<LocalCard>, server: seq<Card>)
    requires Distinct(Ids(CardId, server))
    ensures
      var m, ids := Index(LocalId, locals), Ids(CardId, server);
      var again := Refeed(m.at, Merged(dp, locals, server).cards);
      Kept(CardSides(dp), Index(LocalId, again).at, Unseen(m.keys, ids)) ==
      Kept(CardSides(dp), m.at, Unseen(m.keys, ids))
  {
    var m := Index(LocalId, locals);
    var again := Index(LocalId, Refeed(m.at, Merged(dp, locals, server).cards)).at;
    var rest := Unseen(m.keys, Ids(CardId, server));
    forall i | 0 <= i < |rest|
      ensures rest[i] in m.at && rest[i] in again && again[rest[i]].card == m.at[rest[i]].card {
      RemergedKeptAt(dp, locals, server, i);
    }
    KeptSame(dp, again, m.at, rest);
  }

  lemma MergeIsFixedOnDistinct(dp: DateParse, locals: seq<LocalCard>, server: seq<Card>)
    requires Distinct(Ids(CardId, server))
    ensures MergeIsFixed(dp, locals, server)
  {
    var m := Index(LocalId, locals);
    var once := Merged(dp, locals, server).cards;
    var again := Refeed(m.at, once);
    RemergedRest(dp, locals, server);
    RemergedKept(dp, locals, server);
    forall i | 0 <= i < |server| ensures ServerSide(CardSides(dp), Index(LocalId, again).at, server)[i] == once[i] {
      RemergedAt(dp, locals, server, i);
    }
    assert ServerSide(CardSides(dp), Index(LocalId, again).at, server) == once[..|server|];
    assert once == once[..|server|] + Kept(CardSides(dp), m.at, Unseen(m.keys, Ids(CardId, server)));
  }

  // A server list that repeats an id defeats the fixed point for some local card.

  function OtherState(a: CardState, b: CardState): (r: CardState)
    ensures r != a && r != b && Terminal(r)
  {
    if a != Sent && b != Sent then Sent
    else if a != Archived && b != Archived then Archived
    else Expired
  }

  lemma IndexOfOne(l: LocalCard)
    ensures Index(LocalId, [l]).at == map[l.card.id := l]
  {
    assert [l][..0] == [];
    assert Index(LocalId, [l][..0]) == OrderedMap([], map[]);
  }

  /** A local decision that beats the first of two repeated server cards. */
  function Challenger(server: seq<Card>, i: int, j: int): LocalCard
    requires 0 <= i < j < |server|
  {
    LocalCard(server[i].(state := OtherState(server[i].state, server[j].state)), 1, Some("x"), true, 0)
  }

  lemma RepeatedIdOnce(dp: DateParse, server: seq<Card>, i: int, j: int)
    requires 0 <= i < j < |server| && server[i].id == server[j].id
    requires server[i].id !in Ids(CardId, server[..i])
    ensures var once := Merged(dp, [Challenger(server, i, j)], server).cards;
      once[i].state == Challenger(server, i, j).card.state && once[j] == server[j]
  {
    var l := Challenger(server, i, j);
    IndexOfOne(l);
    ServerSideAt(CardSides(dp), map[l.card.id := l], server, i);
    ServerSideAt(CardSides(dp), map[l.card.id := l], server, j);
    IdsAt(CardId, server[..j], i);
  }

  lemma RepeatedIdBreaksMerge(dp: DateParse, server: seq<Card>, i: int, j: int)
    requires 0 <= i < j < |server| && server[i].id == server[j].id
    requires server[i].id !in Ids(CardId, server[..i])
    requires forall n :: j < n < |server| ==> server[n].id != server[i].id
    ensures !MergeIsFixed(dp, [Challenger(server, i, j)], server)
  {
    var k, l := server[i].id, Challenger(server, i, j);
    var at, once := map[k := l], Merged(dp, [l], server).cards;
    var again := Refeed(at, once);
    IndexOfOne(l);
    RepeatedIdOnce(dp, server, i, j);
    RefeedIds(at, once);
    IdsAt(CardId, once, j);
    IndexHas(LocalId, again, k);
    var last := IndexKeepsLast(LocalId, again, k);
    RefeedAt(at, once, j);
    RefeedAt(at, once, last);
    RepeatedIdLast(dp, [l], server, i, j, last);
    ServerSideAt(CardSides(dp), Index(LocalId, again).at, server, i);
  }

  lemma RepeatedIdLast(dp: DateParse, locals: seq<LocalCard>, server: seq<Card>, i: int, j: int, last: int)
    requires 0 <= i < j < |server| && server[i].id == server[j].id
    requires forall n :: j < n < |server| ==> server[n].id != server[i].id
    requires j <= last < |Merged(dp, locals, server).cards|
    requires Merged(dp, locals, server).cards[last].id == server[i].id
    ensures last == j
  {
    var ids, once := Ids(CardId, server), Merged(dp, locals, server).cards;
    var keys := FirstOccurrences(Ids(LocalId, locals));
    MergedIds(CardSides(dp), locals, server);
    IdsAt(CardId, once, last);
    if last >= |server| {
      UnseenMember(keys, ids, server[i].id);
      IdsAt(CardId, server, i);
    } else {
      IdsAt(CardId, server, last);
    }
  }

  lemma {:induction false} FirstAndLast(ids: seq<string>, k: string) returns (i: int, j: int)
    requires k in ids
    ensures 0 <= i <= j < |ids| && ids[i] == k == ids[j] && k !in ids[..i]
    ensures forall n :: j < n < |ids| ==> ids[n] != k
    ensures forall a, b :: 0 <= a < b < |ids| && ids[a] == k == ids[b] ==> i < j
  {
    var n := |ids| - 1;
    if k in ids[..n] {
      i, j := FirstAndLast(ids[..n], k);
      assert ids[..n][..i] == ids[..i];
      j := if ids[n] == k then n else j;
    } else {
      i, j := n, n;
    }
  }

  lemma RepeatedIdHasWitness(dp: DateParse, server: seq<Card>, k: string, a: int, b: int)
    returns (locals: seq<LocalCard>)
    requires 0 <= a < b < |server| && Ids(CardId, server)[a] == k == Ids(CardId, server)[b]
    ensures !MergeIsFixed(dp, locals, server)
  {
    var i, j := FirstAndLast(Ids(CardId, server), k);
    IdsAt(CardId, server, i);
    IdsAt(CardId, server, j);
    IdsPrefix(CardId, server, i);
    forall n | j < n < |server| ensures server[n].id != server[i].id {
      IdsAt(CardId, server, n);
    }
    RepeatedIdBreaksMerge(dp, server, i, j);
    locals := [Challenger(server, i, j)];
  }

  /** Merging is a fixed point on every local table if and only if the server repeats no id. */
  lemma MergeIsFixedIffServerIdsDistinct(dp: DateParse, server: seq<Card>)
    ensures (forall locals :: MergeIsFixed(dp, locals, server)) <==> Distinct(Ids(CardId, server))
  {
    if Distinct(Ids(CardId, server)) {
      forall locals ensures MergeIsFixed(dp, locals, server) {
        MergeIsFixedOnDistinct(dp, locals, server);
      }
    } else {
      var a, b :| 0 <= a < b < |server| && Ids(CardId, server)[a] == Ids(CardId, server)[b];
      var locals := RepeatedIdHasWitness(dp, server, Ids(CardId, server)[a], a, b);
    }
  }

  // ---------------------------------------------------------------------------
  // Times over a run of snapshots
  // ---------------------------------------------------------------------------

  datatype Stamp = UpdatedAt | DeadlineAt

  function TimeOf(dp: DateParse, w: Stamp, c: Card): int {
    match w case UpdatedAt => Updated(dp, c) case DeadlineAt => Deadline(dp, c)
  }

  function LocalTime(dp: DateParse, w: Stamp, locals: seq<LocalCard>, k: string): Option<int> {
    var at := Index(LocalId, locals).at;
    if k in at then Some(TimeOf(dp, w, at[k].card)) else None
  }

  function CardTime(dp: DateParse, w: Stamp, cards: seq<Card>, k: string): Option<int> {
    var at := Index(CardId, cards).at;
    if k in at then Some(TimeOf(dp, w, at[k])) else None
  }

  function Newest(a: Option<int>, b: Option<int>): Option<int> {
    if a.None? then b else if b.None? then a else Some(Max(a.value, b.value))
  }

  /** One merge keeps, for every id and both times, the later of the two sides. */
  lemma MergeTakesNewest(dp: DateParse, w: Stamp, locals: seq<LocalCard>, server: seq<Card>, k: string)
    requires Distinct(Ids(CardId, server))
    ensures CardTime(dp, w, Merged(dp, locals, server).cards, k) ==
            Newest(LocalTime(dp, w, locals, k), CardTime(dp, w, server, k))
  {
    CardSidesKeepIds(dp);
    MergedIndexIsJoin(CardSides(dp), locals, server, k);
    IndexHas(CardId, server, k);
    IndexHas(LocalId, locals, k);
  }

  /** A run: each local table holds the cards of the previous merge; in between the user may
      change anything about them except the two times. */
  ghost predicate IsRun(dp: DateParse, tables: seq<seq<LocalCard>>, snapshots: seq<seq<Card>>) {
    && |tables| == |snapshots| + 1
    && forall n :: 0 <= n < |snapshots| ==>
         Distinct(Ids(CardId, snapshots[n])) &&
         KeepsTimes(dp, Merged(dp, tables[n], snapshots[n]).cards, tables[n + 1])
  }

  ghost predicate KeepsTimes(dp: DateParse, cards: seq<Card>, locals: seq<LocalCard>) {
    forall w, k :: LocalTime(dp, w, locals, k) == CardTime(dp, w, cards, k)
  }

  function MaxSeen(dp: DateParse, w: Stamp, first: seq<LocalCard>, snapshots: seq<seq<Card>>, k: string): Option<int> {
    if snapshots == [] then LocalTime(dp, w, first, k)
    else
      Newest(MaxSeen(dp, w, first, snapshots[..|snapshots| - 1], k),
             CardTime(dp, w, snapshots[|snapshots| - 1], k))
  }

  ghost predicate TakesNewest(dp: DateParse, w: Stamp, a: seq<LocalCard>, server: seq<Card>, b: seq<LocalCard>,
                              k: string) {
    LocalTime(dp, w, b, k) == Newest(LocalTime(dp, w, a, k), CardTime(dp, w, server, k))
  }

  lemma RunStepTakesNewest(dp: DateParse, w: Stamp, tables: seq<seq<LocalCard>>, snapshots: seq<seq<Card>>,
                           n: int, k: string)
    requires IsRun(dp, tables, snapshots) && 0 <= n < |snapshots|
    ensures TakesNewest(dp, w, tables[n], snapshots[n], tables[n + 1], k)
  {
    assert KeepsTimes(dp, Merged(dp, tables[n], snapshots[n]).cards, tables[n + 1]);
    MergeTakesNewest(dp, w, tables[n], snapshots[n], k);
  }

  lemma MaxSeenOneMore(dp: DateParse, w: Stamp, first: seq<LocalCard>, snapshots: seq<seq<Card>>, last: seq<Card>,
                       k: string)
    ensures MaxSeen(dp, w, first, snapshots + [last], k) ==
            Newest(MaxSeen(dp, w, first, snapshots, k), CardTime(dp, w, last, k))
  {
    assert (snapshots + [last])[..|snapshots|] == snapshots;
  }

  lemma {:induction false} StepsTakeMaxima(dp: DateParse, w: Stamp, tables: seq<seq<LocalCard>>,
                                           snapshots: seq<seq<Card>>, n: int, k: string)
    requires 0 <= n <= |snapshots| < |tables|
    requires forall m :: 0 <= m < n ==> TakesNewest(dp, w, tables[m], snapshots[m], tables[m + 1], k)
    ensures LocalTime(dp, w, tables[n], k) == MaxSeen(dp, w, tables[0], snapshots[..n], k)
  {
    if n > 0 {
      StepsTakeMaxima(dp, w, tables, snapshots, n - 1, k);
      MaxSeenOneMore(dp, w, tables[0], snapshots[..n - 1], snapshots[n - 1], k);
      TakeOneMore(snapshots, n - 1);
      assert TakesNewest(dp, w, tables[n - 1], snapshots[n - 1], tables[n], k);
    }
  }

  /** After any number of rounds each card's two times are the maxima of all that were merged for it. */
  lemma RunTimesAreMaxima(dp: DateParse, w: Stamp, tables: seq<seq<LocalCard>>, snapshots: seq<seq<Card>>,
                          n: int, k: string)
    requires IsRun(dp, tables, snapshots) && 0 <= n <= |snapshots|
    ensures LocalTime(dp, w, tables[n], k) == MaxSeen(dp, w, tables[0], snapshots[..n], k)
  {
    forall m | 0 <= m < n ensures TakesNewest(dp, w, tables[m], snapshots[m], tables[m + 1], k) {
      RunStepTakesNewest(dp, w, tables, snapshots, m, k);
    }
    StepsTakeMaxima(dp, w, tables, snapshots, n, k);
  }

  // ---------------------------------------------------------------------------
  // Uploads
  // ---------------------------------------------------------------------------

  lemma {:induction false} UploadsFor(at: map<string, LocalCard>, keys: seq<string>, k: string)
    requires Distinct(keys) && forall x :: x in at ==> at[x].card.id == x
    ensures ChangesFor(Uploads(at, keys), k) ==
            if k in keys && k in at && HasDecision(at[k]) then [DecisionOf(at[k])] else []
  {
    if keys != [] {
      var n := |keys| - 1;
      DistinctInit(keys);
      MemberSplit(keys, k);
      UploadsFor(at, keys[..n], k);
      var last := if keys[n] in at && HasDecision(at[keys[n]]) then [DecisionOf(at[keys[n]])] else [];
      ChangesForAppend(Uploads(at, keys[..n]), last, k);
      assert last != [] ==> last[..0] == [];
      assert ChangesFor(last, k) == if keys[n] == k then last else [];
    }
  }

  /** The uploads are exactly the unsynced decisions, one for each, whichever side won the state. */
  lemma UploadsAreTheDecisions(dp: DateParse, locals: seq<LocalCard>, server: seq<Card>, k: string)
    ensures var at := Index(LocalId, locals).at;
      ChangesFor(Merged(dp, locals, server).toUpload, k) ==
      if k in at && at[k].dirty && at[k].decision.Some? && at[k].decision.value != ""
      then [Change(k, at[k].version, at[k].card.state, at[k].decision, None, None)] else []
  {
    var m, ids := Index(LocalId, locals), Ids(CardId, server);
    var matched, rest := Matched(ids, m.at), Unseen(m.keys, ids);
    IndexKeys(LocalId, locals);
    MatchedDistinct(ids, m.at);
    UnseenDistinct(m.keys, ids);
    forall x ensures x in matched <==> x in ids && x in m.at ensures x in rest <==> x in m.keys && x !in ids {
      MatchedMember(ids, m.at, x);
      UnseenMember(m.keys, ids, x);
    }
    DistinctConcat(matched, rest);
    IndexedUnderOwnId(locals);
    UploadsFor(m.at, matched + rest, k);
  }
}
