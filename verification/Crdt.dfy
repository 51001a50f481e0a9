/** The offline-first merge of client/src/services/crdt.ts. */
module Crdt {
  import opened Collections
  import opened KeyedMerge

  /** `Date.parse`: the milliseconds of a time text, None for NaN. */
  type DateParse = string -> Option<int>

  datatype CardState = Pending | Consulting | Drafting | Approved | Sent | Archived | Expired

  /** The fields of a card that every merge copies from one side unchanged. */
  datatype CardOrigin = CardOrigin(
    userId: string, threadId: string, sourceAccountId: string, sender: string,
    autoHandleRuleId: Option<string>, classificationConfidence: Option<real>,
    sentAt: Option<string>, createdAt: string)

  datatype Card = Card(
    id: string, origin: CardOrigin, state: CardState,
    urgency: real, context: string, theyWant: string, needFromUser: string, citations: string,
    suggestedDeadline: Option<string>, userDecidedAt: Option<string>, updatedAt: string)

  datatype LocalCard = LocalCard(
    card: Card, version: int, decision: Option<string>, dirty: bool, modifiedAt: int)

  datatype Change = Change(
    cardId: string, version: int, state: CardState, decision: Option<string>,
    draftBody: Option<string>, approvedDraftId: Option<string>)

  datatype Resolution = LocalWins | ServerWins

  datatype Conflict = Conflict(cardId: string, local: CardState, server: CardState, resolution: Resolution)

  datatype MergedResult = MergedResult(cards: seq<Card>, toUpload: seq<Change>, conflicts: seq<Conflict>)

  function CardId(c: Card): string { c.id }

  function LocalId(l: LocalCard): string { l.card.id }

  function ChangeId(c: Change): string { c.cardId }

  // ---------------------------------------------------------------------------
  // Timestamps and decision priority
  // ---------------------------------------------------------------------------

  function ParseTime(dp: DateParse, iso: Option<string>): int {
    match iso
    case None => 0
    case Some(text) =>
      if text == "" then 0
      else match dp(text) case None => 0 case Some(ms) => ms
  }

  function Updated(dp: DateParse, c: Card): int { ParseTime(dp, Some(c.updatedAt)) }

  function Deadline(dp: DateParse, c: Card): int { ParseTime(dp, c.suggestedDeadline) }

  predicate Terminal(s: CardState) { s.Sent? || s.Archived? || s.Expired? }

  /** A finished server workflow overrides a decision that is not itself final. */
  predicate UserDecisionWins(local: CardState, server: CardState) {
    !(Terminal(server) && !Terminal(local))
  }

  /** A decision the server has not seen; the empty text is no decision. */
  predicate HasDecision(l: LocalCard) {
    l.dirty && l.decision.Some? && l.decision.value != ""
  }

  function DecisionOf(l: LocalCard): Change {
    Change(l.card.id, l.version, l.card.state, l.decision, None, None)
  }

  // ---------------------------------------------------------------------------
  // mergeCards
  // ---------------------------------------------------------------------------

  /** The per-id join: content from the server, the state from whoever wins, times from the later side. */
  function Join(dp: DateParse, l: LocalCard, s: Card): Card {
    var user := HasDecision(l) && UserDecisionWins(l.card.state, s.state);
    s.(state := if user then l.card.state else s.state,
       userDecidedAt := if user then l.card.userDecidedAt else s.userDecidedAt,
       updatedAt := if Updated(dp, l.card) > Updated(dp, s) then l.card.updatedAt else s.updatedAt,
       suggestedDeadline := if Deadline(dp, l.card) > Deadline(dp, s)
                            then l.card.suggestedDeadline else s.suggestedDeadline)
  }

  function PlainCard(l: LocalCard): Card { l.card }

  function CardSides(dp: DateParse): Sides<LocalCard, Card> {
    Sides(LocalId, CardId, PlainCard, (l: LocalCard, s: Card) => Join(dp, l, s))
  }

  function Uploads(at: map<string, LocalCard>, keys: seq<string>): seq<Change> {
    if keys == [] then []
    else
      var k := keys[|keys| - 1];
      Uploads(at, keys[..|keys| - 1]) +
      if k in at && HasDecision(at[k]) then [DecisionOf(at[k])] else []
  }

  function ConflictOf(l: LocalCard, s: Card): Conflict {
    Conflict(l.card.id, l.card.state, s.state,
             if UserDecisionWins(l.card.state, s.state) then LocalWins else ServerWins)
  }

  function Conflicts(at: map<string, LocalCard>, server: seq<Card>): seq<Conflict> {
    if server == [] then []
    else
      var init, s := server[..|server| - 1], server[|server| - 1];
      Conflicts(at, init) +
      if s.id in at && s.id !in Ids(CardId, init) && HasDecision(at[s.id]) then [ConflictOf(at[s.id], s)] else []
  }

  function Merged(dp: DateParse, locals: seq<LocalCard>, server: seq<Card>): MergedResult {
    var m := Index(LocalId, locals);
    var ids := Ids(CardId, server);
    var rest := Unseen(m.keys, ids);
    MergedResult(MergedList(CardSides(dp), locals, server),
                 Uploads(m.at, Matched(ids, m.at) + rest),
                 Conflicts(m.at, server))
  }

  /** The time a text stands for; one that is missing, empty or unreadable counts as 0. */
  ghost predicate Reads(dp: DateParse, iso: Option<string>, ms: int) {
    if iso.None? || iso.value == "" || dp(iso.value).None? then ms == 0 else dp(iso.value) == Some(ms)
  }

  /** `r` is the later of two time texts, the server's when neither is later. */
  ghost predicate IsLater(dp: DateParse, local: Option<string>, server: Option<string>, r: Option<string>) {
    forall a, b :: Reads(dp, local, a) && Reads(dp, server, b) ==> r == if a > b then local else server
  }

  /** What a card both sides hold becomes. Its content is the server's. State and time of decision are the
      user's exactly when an unsynced decision stands and the server has not finished a workflow the user
      has not finished; each of the two times is the later one. */
  ghost predicate Reconciled(dp: DateParse, l: LocalCard, s: Card, r: Card) {
    && r.id == s.id && r.origin == s.origin && r.urgency == s.urgency && r.context == s.context
    && r.theyWant == s.theyWant && r.needFromUser == s.needFromUser && r.citations == s.citations
    && (if l.dirty && l.decision.Some? && l.decision.value != "" &&
           (s.state in {Sent, Archived, Expired} ==> l.card.state in {Sent, Archived, Expired})
        then r.state == l.card.state && r.userDecidedAt == l.card.userDecidedAt
        else r.state == s.state && r.userDecidedAt == s.userDecidedAt)
    && IsLater(dp, Some(l.card.updatedAt), Some(s.updatedAt), Some(r.updatedAt))
    && IsLater(dp, l.card.suggestedDeadline, s.suggestedDeadline, r.suggestedDeadline)
  }

  /** The entry logged for an unsynced decision that meets a server card. */
  ghost predicate Logs(l: LocalCard, s: Card, c: Conflict) {
    && c.cardId == l.card.id && c.local == l.card.state && c.server == s.state
    && (c.resolution == ServerWins <==>
        s.state in {Sent, Archived, Expired} && l.card.state !in {Sent, Archived, Expired})
  }

  /** The body of the server loop for a card both sides hold. */
  method MergePair(dp: DateParse, local: LocalCard, server: Card)
    returns (resultCard: Card, conflicts: seq<Conflict>, toUpload: seq<Change>)
    ensures Reconciled(dp, local, server, resultCard)
    ensures |conflicts| == if local.dirty && local.decision.Some? && local.decision.value != "" then 1 else 0
    ensures forall c :: c in conflicts ==> Logs(local, server, c)
    ensures toUpload == if conflicts == [] then []
      else [Change(local.card.id, local.version, local.card.state, local.decision, None, None)]
    ensures resultCard == Join(dp, local, server)
    ensures conflicts == if HasDecision(local) then [ConflictOf(local, server)] else []
    ensures toUpload == if HasDecision(local) then [DecisionOf(local)] else []
  {
    conflicts, toUpload := [], [];
    var serverVersion := ParseTime(dp, Some(server.updatedAt));
    var localVersion := ParseTime(dp, Some(local.card.updatedAt));
    resultCard := server;

    if local.dirty && local.decision.Some? && local.decision.value != "" {
      if UserDecisionWins(local.card.state, server.state) {
        resultCard := resultCard.(state := local.card.state, userDecidedAt := local.card.userDecidedAt);
        conflicts := conflicts + [Conflict(local.card.id, local.card.state, server.state, LocalWins)];
      } else {
        conflicts := conflicts + [Conflict(local.card.id, local.card.state, server.state, ServerWins)];
      }
      toUpload := toUpload + [Change(local.card.id, local.version, local.card.state, local.decision, None, None)];
    }

    if serverVersion > localVersion {
      resultCard := resultCard.(urgency := server.urgency, context := server.context,
                                theyWant := server.theyWant, needFromUser := server.needFromUser,
                                citations := server.citations, updatedAt := server.updatedAt);
    } else if localVersion > serverVersion {
      resultCard := resultCard.(updatedAt := local.card.updatedAt);
    }

    resultCard := resultCard.(suggestedDeadline :=
      if ParseTime(dp, local.card.suggestedDeadline) > ParseTime(dp, server.suggestedDeadline)
      then local.card.suggestedDeadline else server.suggestedDeadline);
  }

  /** What the server loop has built once `seen` is processed. */
  ghost predicate ServerLoop(dp: DateParse, m: OrderedMap<LocalCard>, seen: seq<Card>, done: MergedResult) {
    && done.cards == ServerSide(CardSides(dp), m.at, seen)
    && done.toUpload == Uploads(m.at, Matched(Ids(CardId, seen), m.at))
    && done.conflicts == Conflicts(m.at, seen)
  }

  lemma OneMoreServer(seen: seq<Card>, s: Card)
    ensures (seen + [s])[..|seen|] == seen
    ensures Ids(CardId, seen + [s]) == Ids(CardId, seen) + [s.id]
    ensures Ids(CardId, seen + [s])[..|seen|] == Ids(CardId, seen)
  {
    IdsOneMore(CardId, seen, s);
  }

  lemma UploadsOneMore(at: map<string, LocalCard>, keys: seq<string>, k: string)
    ensures Uploads(at, keys + [k]) ==
      Uploads(at, keys) + if k in at && HasDecision(at[k]) then [DecisionOf(at[k])] else []
  {
    assert (keys + [k])[..|keys|] == keys;
  }

  /** A server card that meets no waiting local card is adopted. */
  lemma ServerAdopted(dp: DateParse, m: OrderedMap<LocalCard>, seen: seq<Card>, s: Card, done: MergedResult)
    requires ServerLoop(dp, m, seen, done) && s.id !in Remaining(m, Ids(CardId, seen)).at
    ensures Remaining(m, Ids(CardId, seen + [s])) == Remaining(m, Ids(CardId, seen))
    ensures ServerLoop(dp, m, seen + [s], done.(cards := done.cards + [s]))
  {
    var ids := Ids(CardId, seen);
    OneMoreServer(seen, s);
    RemainingAt(m, ids, s.id);
    assert Matched(ids + [s.id], m.at) == Matched(ids, m.at);
    assert Conflicts(m.at, seen) + [] == Conflicts(m.at, seen);
  }

  /** One that does is joined with it, and its decision is logged and uploaded. */
  lemma ServerMet(dp: DateParse, m: OrderedMap<LocalCard>, seen: seq<Card>, s: Card, done: MergedResult)
    requires ServerLoop(dp, m, seen, done) && s.id in Remaining(m, Ids(CardId, seen)).at
    ensures Remaining(m, Ids(CardId, seen + [s])) == Remaining(m, Ids(CardId, seen)).Delete(s.id)
    ensures var l := Remaining(m, Ids(CardId, seen)).at[s.id];
      ServerLoop(dp, m, seen + [s], MergedResult(
        done.cards + [Join(dp, l, s)],
        done.toUpload + (if HasDecision(l) then [DecisionOf(l)] else []),
        done.conflicts + (if HasDecision(l) then [ConflictOf(l, s)] else [])))
  {
    var ids := Ids(CardId, seen);
    OneMoreServer(seen, s);
    RemainingAt(m, ids, s.id);
    UploadsOneMore(m.at, Matched(ids, m.at), s.id);
    assert Matched(ids + [s.id], m.at) == Matched(ids, m.at) + [s.id];
  }

  /** The result once the local cards `keys` are appended. */
  ghost function WithLocal(dp: DateParse, at: map<string, LocalCard>, merged: MergedResult,
                           matched: seq<string>, keys: seq<string>): MergedResult {
    MergedResult(merged.cards + Kept(CardSides(dp), at, keys), Uploads(at, matched + keys), merged.conflicts)
  }

  lemma WithLocalStep(dp: DateParse, at: map<string, LocalCard>, merged: MergedResult,
                      matched: seq<string>, keys: seq<string>, k: string)
    requires k in at
    ensures var r := WithLocal(dp, at, merged, matched, keys);
      WithLocal(dp, at, merged, matched, keys + [k]) ==
      r.(cards := r.cards + [at[k].card],
         toUpload := r.toUpload + if HasDecision(at[k]) then [DecisionOf(at[k])] else [])
  {
    assert (keys + [k])[..|keys|] == keys;
    var all := matched + keys;
    assert matched + (keys + [k]) == all + [k] && (all + [k])[..|all|] == all;
  }

  /** The second loop: local cards the server does not have. */
  method MergeRemaining(ghost dp: DateParse, ghost at: map<string, LocalCard>, localMap: OrderedMap<LocalCard>,
                        ghost matched: seq<string>, merged: MergedResult) returns (r: MergedResult)
    requires forall k :: k in localMap.keys ==> k in localMap.at && k in at && localMap.at[k] == at[k]
    requires merged.toUpload == Uploads(at, matched)
    ensures r == WithLocal(dp, at, merged, matched, localMap.keys)
  {
    r := merged;
    var keys := localMap.keys;
    assert matched + keys[..0] == matched;
    for i := 0 to |keys|
      invariant r == WithLocal(dp, at, merged, matched, keys[..i])
    {
      var remaining := localMap.at[keys[i]];
      WithLocalStep(dp, at, merged, matched, keys[..i], keys[i]);
      TakeOneMore(keys, i);
      r := r.(cards := r.cards + [remaining.card]);
      if remaining.dirty && remaining.decision.Some? && remaining.decision.value != "" {
        r := r.(toUpload := r.toUpload + [Change(remaining.card.id, remaining.version, remaining.card.state,
                                                 remaining.decision, None, None)]);
      }
    }
    assert keys[..|keys|] == keys;
  }

  /** The lookup built before the server loop. */
  method LocalLookup(localCards: seq<LocalCard>) returns (localMap: OrderedMap<LocalCard>)
    ensures localMap == Index(LocalId, localCards)
  {
    localMap := OrderedMap([], map[]);
    for i := 0 to |localCards|
      invariant localMap == Index(LocalId, localCards[..i])
    {
      localMap := localMap.Set(localCards[i].card.id, localCards[i]);
      assert localCards[..i + 1][..i] == localCards[..i];
    }
    assert localCards[..|localCards|] == localCards;
  }

  /** The server loop. */
  method MergeServerSide(dp: DateParse, m: OrderedMap<LocalCard>, serverCards: seq<Card>)
    returns (localMap: OrderedMap<LocalCard>, r: MergedResult)
    ensures localMap == Remaining(m, Ids(CardId, serverCards))
    ensures ServerLoop(dp, m, serverCards, r)
  {
    localMap, r := m, MergedResult([], [], []);
    for i := 0 to |serverCards|
      invariant localMap == Remaining(m, Ids(CardId, serverCards[..i]))
      invariant ServerLoop(dp, m, serverCards[..i], r)
    {
      var server := serverCards[i];
      TakeOneMore(serverCards, i);
      if server.id !in localMap.at {
        ServerAdopted(dp, m, serverCards[..i], server, r);
        r := r.(cards := r.cards + [server]);
        continue;
      }
      ServerMet(dp, m, serverCards[..i], server, r);
      var resultCard, conflicts, toUpload := MergePair(dp, localMap.at[server.id], server);
      r := MergedResult(r.cards + [resultCard], r.toUpload + toUpload, r.conflicts + conflicts);
      localMap := localMap.Delete(server.id);
    }
    assert serverCards[..|serverCards|] == serverCards;
  }

  /** The method computes `Merged`, for every input: repeated ids on either side included. */
  method MergeCards(dp: DateParse, localCards: seq<LocalCard>, serverCards: seq<Card>) returns (r: MergedResult)
    ensures r == Merged(dp, localCards, serverCards)
  {
    var m := LocalLookup(localCards);
    IndexKeys(LocalId, localCards);
    var localMap, merged := MergeServerSide(dp, m, serverCards);
    RemainingKeys(m, Ids(CardId, serverCards));
    forall k ensures k in localMap.at <==> k in m.at && k !in Ids(CardId, serverCards)
             ensures k in localMap.at ==> localMap.at[k] == m.at[k] {
      RemainingAt(m, Ids(CardId, serverCards), k);
    }
    forall k | k in localMap.keys ensures k in localMap.at {
      UnseenMember(m.keys, Ids(CardId, serverCards), k);
    }
    r := MergeRemaining(dp, m.at, localMap, Matched(Ids(CardId, serverCards), m.at), merged);
  }

  // ---------------------------------------------------------------------------
  // buildLocalChangePayload
  // ---------------------------------------------------------------------------

  /** The JSON payload of a queue item; either spelling of the card id may be present. */
  datatype Payload = Payload(
    card_id: Option<string>, cardId: Option<string>, version: Option<int>, state: Option<CardState>,
    decision: Option<string>, draftBody: Option<string>, approvedDraftId: Option<string>)

  datatype Operation = UpdateCard | ApproveDraft | CreateDraft

  datatype Item = Item(id: string, operation: Operation, payload: Payload, createdAt: int, retryCount: int)

  /** The payload is about the card: its card_id, or its cardId when there is no card_id. */
  predicate IsAbout(p: Payload, card: string) {
    p.card_id == Some(card) || (p.card_id == None && p.cardId == Some(card))
  }

  function CardIdOf(p: Payload): Option<string> {
    if p.card_id.Some? then p.card_id else p.cardId
  }

  /** The change an item asks for, or None when its card id is missing or empty. */
  function ChangeOf(p: Payload): Option<Change> {
    match CardIdOf(p)
    case None => None
    case Some(k) =>
      if k == "" then None
      else Some(Change(k, if p.version.Some? then p.version.value else 1,
                       if p.state.Some? then p.state.value else Pending,
                       p.decision, p.draftBody, p.approvedDraftId))
  }

  /** What a queue payload asks for, field by field: either spelling of a non-empty card id, version 1 and
      state pending unless it says otherwise. */
  ghost predicate Asks(p: Payload, c: Change) {
    && c.cardId != "" && IsAbout(p, c.cardId)
    && (p.version == Some(c.version) || (p.version == None && c.version == 1))
    && (p.state == Some(c.state) || (p.state == None && c.state == Pending))
    && c.decision == p.decision && c.draftBody == p.draftBody && c.approvedDraftId == p.approvedDraftId
  }

  lemma ChangeIsAsked(p: Payload)
    ensures forall c :: Asks(p, c) <==> ChangeOf(p) == Some(c)
  {
    var f := ChangeOf(p);
    if f.Some? {
      forall c | Asks(p, c) ensures f == Some(c) {
        assert c == Change(c.cardId, c.version, c.state, c.decision, c.draftBody, c.approvedDraftId);
      }
    }
  }

  function Changes(items: seq<Item>): seq<Change> {
    if items == [] then []
    else
      var c := ChangeOf(items[|items| - 1].payload);
      Changes(items[..|items| - 1]) + if c.Some? then [c.value] else []
  }

  function ChangesFor(cs: seq<Change>, k: string): seq<Change> {
    if cs == [] then []
    else ChangesFor(cs[..|cs| - 1], k) + if cs[|cs| - 1].cardId == k then [cs[|cs| - 1]] else []
  }

  lemma {:induction false} ChangesForAppend(a: seq<Change>, b: seq<Change>, k: string)
    ensures ChangesFor(a + b, k) == ChangesFor(a, k) + ChangesFor(b, k)
  {
    if b == [] {
      assert a + b == a;
    } else {
      ChangesForAppend(a, b[..|b| - 1], k);
      assert (a + b)[..|a + b| - 1] == a + b[..|b| - 1];
    }
  }

  function VersionKey(c: Change): real { c.version as real }

  /** `cs[i]` is the earliest change of the highest version for its card. */
  ghost predicate EarliestNewest(cs: seq<Change>, i: int) {
    && 0 <= i < |cs|
    && forall j :: 0 <= j < |cs| && cs[j].cardId == cs[i].cardId ==>
         cs[j].version <= cs[i].version && (j < i ==> cs[j].version < cs[i].version)
  }

  /** One change for each card the items name, in the order the cards first appear, each the
      earliest queued one of the highest version. */
  ghost predicate IsPayloadOf(items: seq<Item>, result: seq<Change>) {
    Reduced(Changes(items), FirstOccurrences(Ids(ChangeId, Changes(items))), result)
  }

  /** The changes of `cs` listed by card. */
  function Groups(cs: seq<Change>): OrderedMap<seq<Change>> {
    if cs == [] then OrderedMap([], map[])
    else
      var m, c := Groups(cs[..|cs| - 1]), cs[|cs| - 1];
      m.Set(c.cardId, (if c.cardId in m.at then m.at[c.cardId] else []) + [c])
  }

  lemma {:induction false} GroupsAt(cs: seq<Change>, k: string)
    ensures k in Groups(cs).at <==> k in Ids(ChangeId, cs)
    ensures k in Groups(cs).at ==> Groups(cs).at[k] == ChangesFor(cs, k)
  {
    if cs != [] {
      var init := cs[..|cs| - 1];
      GroupsAt(init, k);
      if k !in Ids(ChangeId, init) {
        NoChangesFor(init, k);
      }
    }
  }

  lemma {:induction false} GroupsOrder(cs: seq<Change>)
    ensures Groups(cs).keys == FirstOccurrences(Ids(ChangeId, cs))
  {
    if cs != [] {
      var init, ids := cs[..|cs| - 1], Ids(ChangeId, cs);
      assert ids[..|ids| - 1] == Ids(ChangeId, init);
      GroupsOrder(init);
      GroupsAt(init, ids[|ids| - 1]);
    }
  }

  lemma {:induction false} NoChangesFor(cs: seq<Change>, k: string)
    requires k !in Ids(ChangeId, cs)
    ensures ChangesFor(cs, k) == []
  {
    if cs != [] {
      NoChangesFor(cs[..|cs| - 1], k);
    }
  }

  lemma SortedHeadStep(before: seq<Change>, last: Change)
    ensures SortDesc(VersionKey, before + [last])[0] ==
            if before == [] || SortDesc(VersionKey, before)[0].version < last.version
            then last else SortDesc(VersionKey, before)[0]
  {
    assert (before + [last])[..|before|] == before;
  }

  lemma EarliestNewestStep(init: seq<Change>, last: Change, i: int)
    requires EarliestNewest(init, i)
    ensures EarliestNewest(init + [last],
      if last.cardId == init[i].cardId && last.version > init[i].version then |init| else i)
  {
  }

  lemma NotOfCard(cs: seq<Change>, k: string, j: int)
    requires k !in Ids(ChangeId, cs) && 0 <= j < |cs|
    ensures cs[j].cardId != k
  {
    IdsAt(ChangeId, cs, j);
  }

  lemma FirstOfItsCard(cs: seq<Change>, n: int)
    requires n == |cs| - 1 && n >= 0 && cs[n].cardId !in Ids(ChangeId, cs[..n])
    ensures EarliestNewest(cs, n)
  {
    forall j | 0 <= j < n ensures cs[j].cardId != cs[n].cardId {
      NotOfCard(cs[..n], cs[n].cardId, j);
    }
  }

  /** The stable sort's head is the earliest of the newest. */
  lemma {:induction false} SortedHead(cs: seq<Change>, k: string) returns (i: int)
    requires k in Ids(ChangeId, cs)
    ensures EarliestNewest(cs, i) && cs[i].cardId == k
    ensures ChangesFor(cs, k) != [] && SortDesc(VersionKey, ChangesFor(cs, k))[0] == cs[i]
  {
    var n := |cs| - 1;
    var init, last := cs[..n], cs[n];
    assert cs == init + [last];
    assert Ids(ChangeId, cs)[..n] == Ids(ChangeId, init);
    MemberSplit(Ids(ChangeId, cs), k);
    SortedHeadStep(ChangesFor(init, k), last);
    assert ChangesFor(cs, k) ==
      if last.cardId == k then ChangesFor(init, k) + [last] else ChangesFor(init, k);
    if k in Ids(ChangeId, init) {
      i := SortedHead(init, k);
      EarliestNewestStep(init, last, i);
      i := if last.cardId == k && last.version > init[i].version then n else i;
    } else {
      NoChangesFor(init, k);
      FirstOfItsCard(cs, n);
      i := n;
    }
  }

  /** The grouping loop. */
  method GroupByCard(items: seq<Item>) returns (byCard: OrderedMap<seq<Change>>)
    ensures byCard == Groups(Changes(items))
  {
    byCard := OrderedMap([], map[]);
    for i := 0 to |items|
      invariant byCard == Groups(Changes(items[..i]))
    {
      assert items[..i + 1][..i] == items[..i];
      ghost var before := Changes(items[..i]);
      var change := ChangeOf(items[i].payload);
      if change.None? {
        assert Changes(items[..i + 1]) == before;
        continue;
      }
      assert Changes(items[..i + 1]) == before + [change.value];
      assert (before + [change.value])[..|before|] == before;
      var list := if change.value.cardId in byCard.at then byCard.at[change.value.cardId] else [];
      byCard := byCard.Set(change.value.cardId, list + [change.value]);
    }
    assert items[..|items|] == items;
  }

  ghost predicate IsNewest(cs: seq<Change>, c: Change) {
    exists i :: EarliestNewest(cs, i) && cs[i] == c
  }

  /** `result` holds, for each of `keys`, its earliest change of the highest version. */
  ghost predicate Reduced(cs: seq<Change>, keys: seq<string>, result: seq<Change>) {
    && Ids(ChangeId, result) == keys
    && forall n :: 0 <= n < |result| ==> IsNewest(cs, result[n])
  }

  /** The head of each card's sorted changes. */
  function Heads(cs: seq<Change>, keys: seq<string>): seq<Change> {
    if keys == [] then []
    else
      var own := ChangesFor(cs, keys[|keys| - 1]);
      Heads(cs, keys[..|keys| - 1]) + if own == [] then [] else [SortDesc(VersionKey, own)[0]]
  }

  lemma HeadsStep(cs: seq<Change>, keys: seq<string>, k: string)
    requires k in Ids(ChangeId, cs)
    ensures ChangesFor(cs, k) != [] && SortDesc(VersionKey, ChangesFor(cs, k))[0].cardId == k
    ensures Heads(cs, keys + [k]) == Heads(cs, keys) + [SortDesc(VersionKey, ChangesFor(cs, k))[0]]
  {
    assert (keys + [k])[..|keys|] == keys;
    var i := SortedHead(cs, k);
  }

  lemma HeadsIdsStep(cs: seq<Change>, keys: seq<string>, k: string)
    requires k in Ids(ChangeId, cs) && Ids(ChangeId, Heads(cs, keys)) == keys
    ensures Ids(ChangeId, Heads(cs, keys + [k])) == keys + [k]
  {
    HeadsStep(cs, keys, k);
    IdsOneMore(ChangeId, Heads(cs, keys), SortDesc(VersionKey, ChangesFor(cs, k))[0]);
  }

  lemma {:induction false} HeadsIds(cs: seq<Change>, keys: seq<string>)
    requires forall k :: k in keys ==> k in Ids(ChangeId, cs)
    ensures Ids(ChangeId, Heads(cs, keys)) == keys
  {
    if keys != [] {
      HeadsIds(cs, keys[..|keys| - 1]);
      HeadsIdsStep(cs, keys[..|keys| - 1], keys[|keys| - 1]);
      SplitLast(keys);
    }
  }

  lemma {:induction false} HeadsNewest(cs: seq<Change>, keys: seq<string>, c: Change)
    requires c in Heads(cs, keys)
    ensures IsNewest(cs, c)
  {
    if keys != [] {
      var n := |keys| - 1;
      if c in Heads(cs, keys[..n]) {
        HeadsNewest(cs, keys[..n], c);
      } else {
        assert ChangesFor(cs, keys[n]) != [];
        SomeChangeFor(cs, keys[n]);
        var i := SortedHead(cs, keys[n]);
      }
    }
  }

  lemma SomeChangeFor(cs: seq<Change>, k: string)
    requires ChangesFor(cs, k) != []
    ensures k in Ids(ChangeId, cs)
  {
    if k !in Ids(ChangeId, cs) {
      NoChangesFor(cs, k);
    }
  }

  /** Item `i` asks for `c`, and is the earliest of the items that ask for the highest version of its card. */
  ghost predicate AsksNewest(items: seq<Item>, i: int, c: Change) {
    && 0 <= i < |items| && Asks(items[i].payload, c)
    && forall j, d :: 0 <= j < |items| && Asks(items[j].payload, d) && d.cardId == c.cardId ==>
         d.version <= c.version && (j < i ==> d.version < c.version)
  }

  ghost predicate NewestAsked(items: seq<Item>, c: Change) {
    exists i :: AsksNewest(items, i, c)
  }

  /** Each card some item asks about is sent once, as the earliest item of its highest version asks. */
  ghost predicate SendsNewest(items: seq<Item>, result: seq<Change>) {
    && Distinct(Ids(ChangeId, result))
    && (forall j, c :: 0 <= j < |items| && Asks(items[j].payload, c) ==> c.cardId in Ids(ChangeId, result))
    && (forall n :: 0 <= n < |result| ==> NewestAsked(items, result[n]))
  }

  lemma {:induction false} ChangePlace(items: seq<Item>, j: int)
    requires 0 <= j < |items| && ChangeOf(items[j].payload).Some?
    ensures var n := |Changes(items[..j])|;
      n < |Changes(items)| && Changes(items)[n] == ChangeOf(items[j].payload).value
  {
    var n := |items| - 1;
    if j < n {
      ChangePlace(items[..n], j);
      assert items[..n][..j] == items[..j];
    }
  }

  lemma {:induction false} ChangeSource(items: seq<Item>, n: int) returns (i: int)
    requires 0 <= n < |Changes(items)|
    ensures 0 <= i < |items| && ChangeOf(items[i].payload) == Some(Changes(items)[n])
    ensures |Changes(items[..i])| == n
  {
    var last := |items| - 1;
    if n < |Changes(items[..last])| {
      i := ChangeSource(items[..last], n);
      assert items[..last][..i] == items[..i];
    } else {
      i := last;
    }
  }

  lemma {:induction false} ChangesGrow(items: seq<Item>, j: int, i: int)
    requires 0 <= j < i <= |items| && ChangeOf(items[j].payload).Some?
    ensures |Changes(items[..j])| < |Changes(items[..i])|
  {
    assert items[..i][..i - 1] == items[..i - 1];
    if j < i - 1 {
      ChangesGrow(items, j, i - 1);
    }
  }

  lemma NewestIsAsked(items: seq<Item>, c: Change) returns (i: int)
    requires IsNewest(Changes(items), c)
    ensures AsksNewest(items, i, c)
  {
    var cs := Changes(items);
    var n :| EarliestNewest(cs, n) && cs[n] == c;
    i := ChangeSource(items, n);
    ChangeIsAsked(items[i].payload);
    forall j, d | 0 <= j < |items| && Asks(items[j].payload, d) && d.cardId == c.cardId
      ensures d.version <= c.version && (j < i ==> d.version < c.version) {
      ChangeIsAsked(items[j].payload);
      ChangePlace(items, j);
      if j < i {
        ChangesGrow(items, j, i);
      }
    }
  }

  lemma PayloadSendsNewest(items: seq<Item>, result: seq<Change>)
    requires IsPayloadOf(items, result)
    ensures SendsNewest(items, result)
  {
    var cs := Changes(items);
    FirstOccurrencesDistinct(Ids(ChangeId, cs));
    forall j, c | 0 <= j < |items| && Asks(items[j].payload, c) ensures c.cardId in Ids(ChangeId, result) {
      ChangeIsAsked(items[j].payload);
      ChangePlace(items, j);
      IdsAt(ChangeId, cs, |Changes(items[..j])|);
      FirstOccurrencesMember(Ids(ChangeId, cs), c.cardId);
    }
    forall n | 0 <= n < |result| ensures NewestAsked(items, result[n]) {
      var i := NewestIsAsked(items, result[n]);
    }
  }

  /** Every key's list holds its changes, at least one. */
  ghost predicate IsGrouped(cs: seq<Change>, m: OrderedMap<seq<Change>>) {
    forall k :: k in m.keys ==> k in m.at && m.at[k] == ChangesFor(cs, k) && m.at[k] != []
  }

  lemma GroupsAreGrouped(cs: seq<Change>)
    ensures IsGrouped(cs, Groups(cs))
  {
    GroupsOrder(cs);
    forall k | k in Groups(cs).keys ensures k in Groups(cs).at && ChangesFor(cs, k) != [] {
      FirstOccurrencesMember(Ids(ChangeId, cs), k);
      var i := SortedHead(cs, k);
      GroupsAt(cs, k);
    }
    forall k | k in Groups(cs).keys ensures Groups(cs).at[k] == ChangesFor(cs, k) {
      GroupsAt(cs, k);
    }
  }

  method BuildLocalChangePayload(items: seq<Item>) returns (result: seq<Change>)
    ensures SendsNewest(items, result)
    ensures IsPayloadOf(items, result)
  {
    var byCard := GroupByCard(items);
    GroupsAreGrouped(Changes(items));
    result := NewestOfEach(Changes(items), byCard);
    GroupsOrder(Changes(items));
    ghost var ids := Ids(ChangeId, Changes(items));
    forall k | k in FirstOccurrences(ids) ensures k in ids {
      FirstOccurrencesMember(ids, k);
    }
    HeadsIds(Changes(items), FirstOccurrences(ids));
    forall n | 0 <= n < |result| ensures IsNewest(Changes(items), result[n]) {
      HeadsNewest(Changes(items), FirstOccurrences(ids), result[n]);
    }
    PayloadSendsNewest(items, result);
  }

  lemma GroupHead(cs: seq<Change>, keys: seq<string>, k: string)
    requires ChangesFor(cs, k) != []
    ensures Heads(cs, keys + [k]) == Heads(cs, keys) + [SortDesc(VersionKey, ChangesFor(cs, k))[0]]
  {
    assert (keys + [k])[..|keys|] == keys;
  }

  /** The sorting loop. */
  method NewestOfEach(ghost cs: seq<Change>, byCard: OrderedMap<seq<Change>>) returns (result: seq<Change>)
    requires IsGrouped(cs, byCard)
    ensures result == Heads(cs, byCard.keys)
  {
    var keys := byCard.keys;
    result := [];
    for n := 0 to |keys|
      invariant result == Heads(cs, keys[..n])
    {
      GroupHead(cs, keys[..n], keys[n]);
      TakeOneMore(keys, n);
      var changes := SortDesc(VersionKey, byCard.at[keys[n]]);
      result := result + [changes[0]];
    }
    assert keys[..|keys|] == keys;
  }

  /** No item's change is lost to a lower version: its card is sent at its version or above. */
  lemma PayloadCovers(items: seq<Item>, result: seq<Change>, c: Change) returns (n: int)
    requires IsPayloadOf(items, result) && c in Changes(items)
    ensures 0 <= n < |result| && result[n].cardId == c.cardId && result[n].version >= c.version
  {
    var cs := Changes(items);
    var j :| 0 <= j < |cs| && cs[j] == c;
    IdsAt(ChangeId, cs, j);
    FirstOccurrencesMember(Ids(ChangeId, cs), c.cardId);
    n :| 0 <= n < |result| && Ids(ChangeId, result)[n] == c.cardId;
    IdsAt(ChangeId, result, n);
    assert IsNewest(cs, result[n]);
    var i :| EarliestNewest(cs, i) && cs[i] == result[n];
  }
}
