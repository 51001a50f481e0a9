/** One sync cycle over the local tables: client/src/services/sync.ts. */
module SyncEngines {
  import opened Collections
  import opened KeyedMerge
  import opened Crdt
  import opened CrdtLaws
  import opened SyncQueues
  import Protocol = SyncProtocol

  datatype Rejected = Rejected(cardId: string, reason: string, serverState: CardState)

  datatype Response = Response(
    serverVersion: int, accepted: seq<string>, rejected: seq<Rejected>,
    newCards: seq<Card>, updatedCards: seq<Card>, removedCards: seq<string>)

  /** The outcome of a fetch: a failed request throws. */
  datatype Reply<T> = HttpError | Body(value: T)

  datatype Cursor = Cursor(deviceId: string, version: int, at: int)

  datatype SyncStatus = Succeeded | Failed

  datatype UploadResult = UploadResult(uploaded: nat, accepted: nat, rejected: nat, newCards: nat, updatedCards: nat)

  datatype DownloadResult = DownloadResult(newCards: nat, updatedCards: nat, conflicts: seq<Conflict>)

  /** The report without its durations and texts. */
  datatype Report = Report(
    uploaded: nat, accepted: nat, rejected: nat, newCards: nat, updatedCards: nat, conflicts: seq<Conflict>,
    error: bool)

  const NO_REPORT := Report(0, 0, 0, 0, 0, [], false)

  function WithUpload(r: Report, u: UploadResult): Report {
    r.(uploaded := u.uploaded, accepted := u.accepted, rejected := u.rejected, newCards := u.newCards,
       updatedCards := u.updatedCards)
  }

  function WithDownload(r: Report, d: DownloadResult): Report {
    r.(newCards := r.newCards + d.newCards, updatedCards := r.updatedCards + d.updatedCards, conflicts := d.conflicts)
  }

  function Counts(pending: seq<Item>, r: Response): UploadResult {
    UploadResult(|pending|, |r.accepted|, |r.rejected|, |r.newCards|, |r.updatedCards|)
  }

  function UploadCounts(pending: seq<Item>, reply: Reply<Response>): UploadResult {
    if pending == [] || reply.HttpError? then NOTHING_UPLOADED else Counts(pending, reply.value)
  }

  /** The first cycle creates the cursor, and an answered upload moves it. */
  function CursorAfter(before: Option<Cursor>, deviceId: string, pending: seq<Item>, reply: Reply<Response>,
                       now: int): Option<Cursor> {
    if pending != [] && reply.Body? then Some(Cursor(deviceId, reply.value.serverVersion, now))
    else if before.None? then Some(Cursor(deviceId, 0, 0))
    else before
  }

  const NOTHING_UPLOADED := UploadResult(0, 0, 0, 0, 0)
  const NOTHING_DOWNLOADED := DownloadResult(0, 0, [])

  type Table = map<string, LocalCard>

  /** The table's primary key. */
  ghost predicate Keyed(t: Table) { forall k :: k in t ==> t[k].card.id == k }

  // ---------------------------------------------------------------------------
  // Card table statements
  // ---------------------------------------------------------------------------

  /** INSERT OR REPLACE of cards, each row getting the given version and a clean flag. */
  function Inserted(t: Table, cards: seq<Card>, version: int, now: int): Table {
    if cards == [] then t
    else
      var c := cards[|cards| - 1];
      Inserted(t, cards[..|cards| - 1], version, now)[c.id := LocalCard(c, version, None, false, now)]
  }

  /** What UPDATE leaves of a row: all but the creation time and the local columns is the server's. */
  function UpdatedRow(l: LocalCard, c: Card): LocalCard {
    l.(card := c.(id := l.card.id, origin := c.origin.(createdAt := l.card.origin.createdAt)), dirty := false)
  }

  function UpdatedTable(t: Table, cards: seq<Card>): Table {
    if cards == [] then t
    else
      var before, c := UpdatedTable(t, cards[..|cards| - 1]), cards[|cards| - 1];
      if c.id in before then before[c.id := UpdatedRow(before[c.id], c)] else before
  }

  /** The three card lists of an upload response, applied in order. */
  function Answered(t: Table, r: Response, now: int): Table {
    UpdatedTable(Inserted(t, r.newCards, 0, now), r.updatedCards) - (set k | k in r.removedCards)
  }

  lemma {:induction false} InsertedAt(t: Table, cards: seq<Card>, version: int, now: int, k: string)
    ensures k in Inserted(t, cards, version, now) <==> k in t || k in Ids(CardId, cards)
    ensures k in Index(CardId, cards).at ==>
      k in Ids(CardId, cards) &&
      Inserted(t, cards, version, now)[k] == LocalCard(Index(CardId, cards).at[k], version, None, false, now)
    ensures k !in Ids(CardId, cards) && k in t ==> Inserted(t, cards, version, now)[k] == t[k]
  {
    if cards != [] {
      InsertedAt(t, cards[..|cards| - 1], version, now, k);
      IndexHas(CardId, cards[..|cards| - 1], k);
      MemberSplit(Ids(CardId, cards), k);
    }
    IndexHas(CardId, cards, k);
  }

  /** What an update with the server's `c` makes of a row: the server's card but for id and creation time,
      clean; version, decision and time of modification stay. */
  ghost predicate Overwrites(l: LocalCard, c: Card, r: LocalCard) {
    && r.card == Card(l.card.id, c.origin.(createdAt := l.card.origin.createdAt), c.state, c.urgency, c.context,
                      c.theyWant, c.needFromUser, c.citations, c.suggestedDeadline, c.userDecidedAt, c.updatedAt)
    && r.version == l.version && r.decision == l.decision && !r.dirty && r.modifiedAt == l.modifiedAt
  }

  /** Only the last update of a row counts. */
  lemma {:induction false} UpdatedAt(t: Table, cards: seq<Card>, k: string)
    ensures k in UpdatedTable(t, cards) <==> k in t
    ensures k in t && k !in Ids(CardId, cards) ==> UpdatedTable(t, cards)[k] == t[k]
    ensures k in t && k in Index(CardId, cards).at ==>
      Overwrites(t[k], Index(CardId, cards).at[k], UpdatedTable(t, cards)[k])
  {
    IndexHas(CardId, cards, k);
    if cards != [] {
      var n := |cards| - 1;
      UpdatedAt(t, cards[..n], k);
      IndexHas(CardId, cards[..n], k);
      MemberSplit(Ids(CardId, cards), k);
    }
  }

  /** The row with id `k` after one list of server cards: inserted or replaced with version 0, or overwritten if
      it is there; of the cards the list names twice the last one counts. */
  ghost predicate ListedAt(t: Table, list: seq<Card>, insert: bool, now: int, after: Table, k: string) {
    var cards := Index(CardId, list).at;
    && (k in after <==> k in t || (insert && k in cards))
    && (k in after && k !in cards ==> after[k] == t[k])
    && (k in after && k in cards ==>
          if insert then after[k] == LocalCard(cards[k], 0, None, false, now) else Overwrites(t[k], cards[k], after[k]))
  }

  lemma ListedRow(t: Table, list: seq<Card>, insert: bool, now: int, k: string)
    ensures ListedAt(t, list, insert, now, if insert then Inserted(t, list, 0, now) else UpdatedTable(t, list), k)
  {
    InsertedAt(t, list, 0, now, k);
    UpdatedAt(t, list, k);
    IndexHas(CardId, list, k);
  }

  /** The row with id `k` after an upload response, told from its three lists; of the cards a list names
      twice the last one counts. */
  ghost predicate AnsweredAt(t: Table, r: Response, now: int, after: Table, k: string) {
    var news, updates := Index(CardId, r.newCards).at, Index(CardId, r.updatedCards).at;
    && (k in after <==> (k in t || k in news) && k !in r.removedCards)
    && (k in after && k !in news && k !in updates ==> after[k] == t[k])
    && (k in after && k in news && k !in updates ==> after[k] == LocalCard(news[k], 0, None, false, now))
    && (k in after && k !in news && k in updates ==> Overwrites(t[k], updates[k], after[k]))
    && (k in after && k in news && k in updates ==>
          Overwrites(LocalCard(news[k], 0, None, false, now), updates[k], after[k]))
  }

  lemma AnsweredRow(t: Table, r: Response, now: int, k: string)
    ensures AnsweredAt(t, r, now, Answered(t, r, now), k)
  {
    InsertedAt(t, r.newCards, 0, now, k);
    IndexHas(CardId, r.newCards, k);
    IndexHas(CardId, r.updatedCards, k);
    UpdatedAt(Inserted(t, r.newCards, 0, now), r.updatedCards, k);
  }

  ghost predicate HoldsDecision(t: Table, k: string) {
    k in t && t[k].dirty && t[k].decision.Some? && t[k].decision.value != ""
  }

  /** An upload response leaves a card's unsynced decision in the table if and only if it names the
      card in none of its three lists; what it names, it overwrites clean. */
  lemma AnswerKeepsDecisionIff(t: Table, r: Response, now: int, k: string)
    requires HoldsDecision(t, k)
    ensures HoldsDecision(Answered(t, r, now), k) <==>
            k !in Ids(CardId, r.newCards) && k !in Ids(CardId, r.updatedCards) && k !in r.removedCards
  {
    AnsweredRow(t, r, now, k);
    IndexHas(CardId, r.newCards, k);
    IndexHas(CardId, r.updatedCards, k);
  }

  // ---------------------------------------------------------------------------
  // Queue bookkeeping of an upload
  // ---------------------------------------------------------------------------

  /** `pending.find(...)`: the first item of a card. */
  function FirstOf(items: seq<Item>, cardId: string): Option<Item> {
    if items == [] then None
    else if CardIdOf(items[0].payload) == Some(cardId) then Some(items[0])
    else FirstOf(items[1..], cardId)
  }

  /** One retry for every rejection, on the first pending item of its card. */
  function Bumped(rows: seq<Row>, items: seq<Item>, rejected: seq<Rejected>): (r: seq<Row>)
    ensures |r| == |rows|
  {
    if rejected == [] then rows
    else
      var before := Bumped(rows, items, rejected[..|rejected| - 1]);
      var item := FirstOf(items, rejected[|rejected| - 1].cardId);
      if item.Some? then Retried(before, item.value.id) else before
  }

  ghost predicate AcceptedItem(item: Item, accepted: seq<string>) {
    exists card :: card in accepted && card != "" && IsAbout(item.payload, card)
  }

  /** The first of the items about the card has the id. */
  ghost predicate IsFirstAbout(items: seq<Item>, card: string, id: string) {
    exists i :: 0 <= i < |items| && items[i].id == id && IsAbout(items[i].payload, card) &&
      forall j :: 0 <= j < i ==> !IsAbout(items[j].payload, card)
  }

  /** The rejections that hit the row: those of a card whose first pending item it is. */
  ghost function Rejections(items: seq<Item>, rejected: seq<Rejected>, id: string): nat {
    if rejected == [] then 0
    else
      var n := |rejected| - 1;
      Rejections(items, rejected[..n], id) + if IsFirstAbout(items, rejected[n].cardId, id) then 1 else 0
  }

  lemma {:induction false} FirstAbout(items: seq<Item>, card: string, id: string)
    ensures IsFirstAbout(items, card, id) <==> FirstOf(items, card).Some? && FirstOf(items, card).value.id == id
  {
    if items != [] && !IsAbout(items[0].payload, card) {
      FirstAbout(items[1..], card, id);
      if IsFirstAbout(items, card, id) {
        var i :| 0 <= i < |items| && items[i].id == id && IsAbout(items[i].payload, card) &&
          forall j :: 0 <= j < i ==> !IsAbout(items[j].payload, card);
        assert items[1..][i - 1] == items[i];
        forall j | 0 <= j < i - 1 ensures !IsAbout(items[1..][j].payload, card) {
          assert items[1..][j] == items[j + 1];
        }
      }
      if IsFirstAbout(items[1..], card, id) {
        var i :| 0 <= i < |items| - 1 && items[1..][i].id == id && IsAbout(items[1..][i].payload, card) &&
          forall j :: 0 <= j < i ==> !IsAbout(items[1..][j].payload, card);
        assert items[i + 1] == items[1..][i];
        forall j | 0 <= j < i + 1 ensures !IsAbout(items[j].payload, card) {
          assert j > 0 ==> items[j] == items[1..][j - 1];
        }
      }
    }
  }

  /** Every row gets one retry for each rejection that hits it. */
  lemma {:induction false} BumpedAt(rows: seq<Row>, items: seq<Item>, rejected: seq<Rejected>, i: int)
    requires 0 <= i < |rows|
    ensures Bumped(rows, items, rejected)[i] == rows[i].(item := rows[i].item.(retryCount :=
      rows[i].item.retryCount + Rejections(items, rejected, rows[i].item.id)))
  {
    if rejected != [] {
      var n := |rejected| - 1;
      BumpedAt(rows, items, rejected[..n], i);
      FirstAbout(items, rejected[n].cardId, rows[i].item.id);
    }
  }

  lemma {:induction false} AcceptedIdsIff(items: seq<Item>, accepted: seq<string>, item: Item)
    requires Distinct(Ids(ItemId, items)) && item in items
    ensures item.id in Protocol.AcceptedIds(items, accepted) <==> AcceptedItem(item, accepted)
  {
    var n, ids := |items| - 1, Ids(ItemId, items);
    assert ids[..n] == Ids(ItemId, items[..n]);
    DistinctInit(ids);
    MemberSplit(items, item);
    if item in items[..n] {
      AcceptedIdsIff(items[..n], accepted, item);
      var j :| 0 <= j < n && items[..n][j] == item;
      IdsAt(ItemId, items[..n], j);
      assert item.id in ids[..n];
    } else if item.id in Protocol.AcceptedIds(items[..n], accepted) {
      var it := Protocol.AcceptedIdsMember(items[..n], accepted, item.id);
      var j :| 0 <= j < n && items[..n][j] == it;
      IdsAt(ItemId, items[..n], j);
    }
  }

  // ---------------------------------------------------------------------------
  // The download as a join of two tables
  // ---------------------------------------------------------------------------

  /** The cards after a download, without any list or order. */
  ghost function Downloaded(dp: DateParse, t: Table, server: map<string, Card>): map<string, Card> {
    map k | k in t.Keys + server.Keys :: JoinAt(CardSides(dp), t, server, k)
  }

  ghost function CardsOf(t: Table): map<string, Card> { map k | k in t :: t[k].card }

  ghost predicate AllClean(t: Table) { forall k :: k in t ==> !t[k].dirty }

  /** The user's state stands against this server card and differs from it. */
  predicate UserStateStands(l: LocalCard, s: Card) {
    && HasDecision(l) && UserDecisionWins(l.card.state, s.state)
    && (l.card.state != s.state || l.card.userDecidedAt != s.userDecidedAt)
  }

  lemma CleanRejoin(dp: DateParse, l: LocalCard, l': LocalCard, s: Card)
    requires !l'.dirty && l'.card == Join(dp, l, s)
    ensures Join(dp, l', s) == Join(dp, l, s) <==> !UserStateStands(l, s)
  {
  }

  /** A second download of the same server cards changes nothing if and only if no decision of the
      user stood against them in the first: the first download cleans the flag the decision needs. */
  lemma SecondDownloadFixedIff(dp: DateParse, before: Table, after: Table, server: map<string, Card>)
    requires AllClean(after) && CardsOf(after) == Downloaded(dp, before, server)
    ensures Downloaded(dp, after, server) == CardsOf(after) <==>
            forall k :: k in before && k in server ==> !UserStateStands(before[k], server[k])
  {
    var again, once := Downloaded(dp, after, server), CardsOf(after);
    assert after.Keys == once.Keys && once.Keys == before.Keys + server.Keys;
    assert again.Keys == once.Keys;
    forall k | k in again ensures again[k] == once[k] <==>
      !(k in before && k in server && UserStateStands(before[k], server[k])) {
      assert once[k] == after[k].card;
      if k in server {
        if k in before {
          CleanRejoin(dp, before[k], after[k], server[k]);
        } else {
          JoinIdempotent(dp, after[k], server[k]);
        }
      }
    }
    if again == once {
      forall k | k in before && k in server ensures !UserStateStands(before[k], server[k]) {
        assert k in again;
      }
    }
  }

  /** One card approved by the user against a pending server copy: the second download reverts it. */
  lemma SecondDownloadReverts(dp: DateParse, s: Card, now: int)
    requires s.state == Pending
    ensures var before := map[s.id := LocalCard(s.(state := Approved), 1, Some("approve"), true, 0)];
      var once := Downloaded(dp, before, map[s.id := s]);
      var after := map[s.id := LocalCard(once[s.id], 0, None, false, now)];
      once[s.id].state == Approved && Downloaded(dp, after, map[s.id := s])[s.id].state == Pending
  {
  }

  // ---------------------------------------------------------------------------
  // The engine
  // ---------------------------------------------------------------------------

  function PayloadOf(c: Change): Payload {
    Payload(Some(c.cardId), None, Some(c.version), Some(c.state), c.decision, c.draftBody, c.approvedDraftId)
  }

  /** The queue rows of newly enqueued changes, the n-th under the n-th generated id. */
  function UploadRows(changes: seq<Change>, ids: nat -> string, now: int): (r: seq<Row>)
    ensures |r| == |changes|
  {
    if changes == [] then []
    else
      var n := |changes| - 1;
      UploadRows(changes[..n], ids, now) + [Row(Item(ids(n), UpdateCard, PayloadOf(changes[n]), now, 0), None)]
  }

  /** A queued change is read back as it was, unless its card id is empty. */
  lemma QueuedChangeReadsBack(c: Change)
    ensures ChangeOf(PayloadOf(c)) == if c.cardId == "" then None else Some(c)
  {
  }

  /** Pending rows of a card update enqueued now, the n-th under the n-th generated id. */
  ghost predicate FreshlyQueued(rows: seq<Row>, ids: nat -> string, now: int) {
    forall i :: 0 <= i < |rows| ==>
      && rows[i].completedAt == None && rows[i].item.id == ids(i) && rows[i].item.operation == UpdateCard
      && rows[i].item.createdAt == now && rows[i].item.retryCount == 0
  }

  /** Read back as changes, the rows ask for a card exactly when the table holds an unsynced decision on it: once,
      with its version, state and text. An empty card id is never asked for. */
  ghost predicate AsksForDecision(t: Table, rows: seq<Row>, k: string) {
    ChangesFor(Changes(PendingItems(rows)), k) ==
      if k in t && t[k].dirty && t[k].decision.Some? && t[k].decision.value != "" && k != ""
      then [Change(k, t[k].version, t[k].card.state, t[k].decision, None, None)] else []
  }

  lemma QueuedOneMore(rows: seq<Row>, c: Change, id: string, now: int)
    ensures Changes(PendingItems(rows + [Row(Item(id, UpdateCard, PayloadOf(c), now, 0), None)])) ==
            Changes(PendingItems(rows)) + if c.cardId == "" then [] else [c]
  {
    var row := Row(Item(id, UpdateCard, PayloadOf(c), now, 0), None);
    assert (rows + [row])[..|rows|] == rows;
    var items := PendingItems(rows);
    assert (items + [row.item])[..|items|] == items;
    QueuedChangeReadsBack(c);
  }

  lemma ChangesForOneMore(cs: seq<Change>, c: Change, k: string)
    ensures ChangesFor(cs + [c], k) == ChangesFor(cs, k) + if c.cardId == k then [c] else []
  {
    assert (cs + [c])[..|cs|] == cs;
  }

  lemma ReadBackStep(changes: seq<Change>, rows: seq<Row>, c: Change, id: string, now: int, k: string)
    requires ChangesFor(Changes(PendingItems(rows)), k) == if k == "" then [] else ChangesFor(changes, k)
    ensures ChangesFor(Changes(PendingItems(rows + [Row(Item(id, UpdateCard, PayloadOf(c), now, 0), None)])), k) ==
            if k == "" then [] else ChangesFor(changes + [c], k)
  {
    QueuedOneMore(rows, c, id, now);
    ChangesForOneMore(changes, c, k);
    if c.cardId != "" {
      ChangesForOneMore(Changes(PendingItems(rows)), c, k);
    } else {
      assert Changes(PendingItems(rows)) + [] == Changes(PendingItems(rows));
    }
  }

  lemma {:induction false} QueuedReadBack(changes: seq<Change>, ids: nat -> string, now: int, k: string)
    ensures ChangesFor(Changes(PendingItems(UploadRows(changes, ids, now))), k) ==
            if k == "" then [] else ChangesFor(changes, k)
  {
    if changes != [] {
      var n := |changes| - 1;
      QueuedReadBack(changes[..n], ids, now, k);
      ReadBackStep(changes[..n], UploadRows(changes[..n], ids, now), changes[n], ids(n), now, k);
      SplitLast(changes);
    }
  }

  /** Rows keep their key, and exactly the accepted pending ones become completed. */
  ghost predicate CompletesExactly(before: seq<Row>, after: seq<Row>, accepted: seq<string>, now: int) {
    && |after| == |before|
    && forall i :: 0 <= i < |before| ==>
         SameUpToRetries(before[i], after[i]) &&
         after[i].completedAt ==
           if before[i].completedAt.None? && AcceptedItem(before[i].item, accepted) then Some(now)
           else before[i].completedAt
  }

  /** Rows keep their place, and each has one retry more for every rejection that hits it. */
  ghost predicate RetriesExactly(before: seq<Row>, after: seq<Row>, items: seq<Item>, rejected: seq<Rejected>) {
    && |after| == |before|
    && forall i :: 0 <= i < |before| ==>
         after[i].item == before[i].item.(retryCount :=
           before[i].item.retryCount + Rejections(items, rejected, before[i].item.id))
  }

  lemma BumpsAreExact(before: seq<Row>, rows: seq<Row>, items: seq<Item>, rejected: seq<Rejected>)
    requires |rows| == |before| && forall i :: 0 <= i < |rows| ==> rows[i].item == before[i].item
    ensures RetriesExactly(before, Bumped(rows, items, rejected), items, rejected)
  {
    forall i | 0 <= i < |rows| ensures Bumped(rows, items, rejected)[i].item ==
      before[i].item.(retryCount := before[i].item.retryCount + Rejections(items, rejected, before[i].item.id)) {
      BumpedAt(rows, items, rejected, i);
    }
  }

  predicate SameUpToRetries(a: Row, b: Row) {
    a.item.(retryCount := b.item.retryCount) == b.item && a.item.retryCount <= b.item.retryCount
  }

  lemma {:induction false} PendingIdsDistinct(rows: seq<Row>)
    requires Distinct(Ids(RowId, rows))
    ensures Distinct(Ids(ItemId, PendingItems(rows)))
    ensures forall k :: k in Ids(ItemId, PendingItems(rows)) ==> k in Ids(RowId, rows)
  {
    if rows != [] {
      var init, last, ids := rows[..|rows| - 1], rows[|rows| - 1], Ids(RowId, rows);
      assert ids[..|ids| - 1] == Ids(RowId, init);
      DistinctInit(ids);
      PendingIdsDistinct(init);
      var p := PendingItems(init);
      if last.completedAt.None? {
        assert (p + [last.item])[..|p|] == p;
        DistinctAppend(Ids(ItemId, p), last.item.id);
      } else {
        assert PendingItems(rows) == p;
      }
    }
  }

  lemma DistinctFromMultiset<T>(a: seq<T>, b: seq<T>)
    requires Distinct(a) && multiset(a) == multiset(b)
    ensures Distinct(b)
  {
    forall i, j | 0 <= i < j < |b| ensures b[i] != b[j] {
      DistinctMultiplicity(a, b[i]);
      assert b == b[..j] + [b[j]] + b[j + 1..];
      assert b[i] in b[..j];
      assert b[i] == b[j] ==> multiset(b)[b[i]] >= 2;
    }
  }

  lemma SameIdSameItem(items: seq<Item>, a: Item, b: Item)
    requires Distinct(Ids(ItemId, items)) && a in items && b in items && a.id == b.id
    ensures a == b
  {
    var i :| 0 <= i < |items| && items[i] == a;
    var j :| 0 <= j < |items| && items[j] == b;
    IdsAt(ItemId, items, i);
    IdsAt(ItemId, items, j);
  }

  lemma PendingAnswerIds(rows: seq<Row>, items: seq<Item>)
    requires Distinct(Ids(RowId, rows)) && IsPendingAnswer(rows, items)
    ensures Distinct(Ids(ItemId, items))
  {
    var all := PendingItems(rows);
    PendingIdsDistinct(rows);
    DistinctIdsDistinctItems(ItemId, all);
    DistinctFromMultiset(all, items);
    forall i, j | 0 <= i < j < |items| ensures Ids(ItemId, items)[i] != Ids(ItemId, items)[j] {
      IdsAt(ItemId, items, i);
      IdsAt(ItemId, items, j);
      assert items[i] in multiset(all) && items[j] in multiset(all);
      if items[i].id == items[j].id {
        SameIdSameItem(all, items[i], items[j]);
      }
    }
  }

  /** The batch completion hits exactly the accepted pending rows. */
  lemma CompletionIsExact(rows: seq<Row>, items: seq<Item>, accepted: seq<string>, now: int)
    requires Distinct(Ids(RowId, rows)) && IsPendingAnswer(rows, items)
    ensures CompletesExactly(rows, Completed(rows, Protocol.AcceptedIds(items, accepted), now), accepted, now)
  {
    var ids := Protocol.AcceptedIds(items, accepted);
    PendingAnswerIds(rows, items);
    forall i | 0 <= i < |rows|
      ensures rows[i].item.id in ids <==> rows[i].completedAt.None? && AcceptedItem(rows[i].item, accepted)
    {
      PendingAnswerMember(rows, items, rows[i].item);
      IdsAt(RowId, rows, i);
      if rows[i].completedAt.None? {
        assert rows[i] == Row(rows[i].item, None);
        AcceptedIdsIff(items, accepted, rows[i].item);
      } else if rows[i].item.id in ids {
        var it := Protocol.AcceptedIdsMember(items, accepted, rows[i].item.id);
        PendingAnswerMember(rows, items, it);
        var j :| 0 <= j < |rows| && rows[j] == Row(it, None);
        IdsAt(RowId, rows, j);
      }
    }
  }

  lemma {:induction false} BumpsKeepCompletion(before: seq<Row>, rows: seq<Row>, items: seq<Item>,
                                               rejected: seq<Rejected>, accepted: seq<string>, now: int)
    requires CompletesExactly(before, rows, accepted, now)
    ensures CompletesExactly(before, Bumped(rows, items, rejected), accepted, now)
  {
    if rejected != [] {
      BumpsKeepCompletion(before, rows, items, rejected[..|rejected| - 1], accepted, now);
    }
  }

  /** `locals` lists the rows of the table that are not to do. */
  ghost predicate Listed(t: Table, locals: seq<LocalCard>, todo: set<string>) {
    && todo <= t.Keys && Distinct(Ids(LocalId, locals))
    && (forall k :: k in Ids(LocalId, locals) ==> k in t && k !in todo)
    && Index(LocalId, locals).at == map k | k in t && k !in todo :: t[k]
  }

  lemma ListOneMore(t: Table, locals: seq<LocalCard>, todo: set<string>, k: string)
    requires Keyed(t) && Listed(t, locals, todo) && k in todo
    ensures Listed(t, locals + [t[k]], todo - {k})
  {
    IdsOneMore(LocalId, locals, t[k]);
    IndexOneMore(LocalId, locals, t[k]);
    DistinctAppend(Ids(LocalId, locals), k);
  }

  /** The rows after an upload whose response accepts nothing and rejects the card. */
  function RejectedOnce(rows: seq<Row>, card: string, now: int): seq<Row> {
    var pending := PendingItems(rows);
    Bumped(Completed(rows, Protocol.AcceptedIds(pending, []), now), pending, [Rejected(card, "", Pending)])
  }

  /** After `n` such uploads. */
  function RejectedTimes(rows: seq<Row>, card: string, now: int, n: nat): seq<Row> {
    if n == 0 then rows else RejectedOnce(RejectedTimes(rows, card, now, n - 1), card, now)
  }

  function Tried(item: Item, n: nat): Item { item.(retryCount := item.retryCount + n) }

  lemma OnePending(item: Item)
    ensures PendingItems([Row(item, None)]) == [item]
  {
    assert [Row(item, None)][..0] == [];
  }

  lemma {:induction false} NoneAccepted(items: seq<Item>)
    ensures Protocol.AcceptedIds(items, []) == []
  {
    if items != [] {
      NoneAccepted(items[..|items| - 1]);
    }
  }

  lemma OneBumped(rows: seq<Row>, item: Item, card: string)
    requires CardIdOf(item.payload) == Some(card)
    ensures Bumped(rows, [item], [Rejected(card, "", Pending)]) == Retried(rows, item.id)
  {
    var rejected := [Rejected(card, "", Pending)];
    assert rejected[..0] == [];
    assert Bumped(rows, [item], rejected[..0]) == rows;
  }

  lemma NothingCompleted(rows: seq<Row>, now: int)
    ensures Completed(rows, [], now) == rows
  {
    forall i | 0 <= i < |rows| ensures Completed(rows, [], now)[i] == rows[i] {
    }
  }

  lemma OneRetried(item: Item)
    ensures Retried([Row(item, None)], item.id) == [Row(Tried(item, 1), None)]
  {
  }

  lemma OneRejection(item: Item, card: string, now: int)
    requires CardIdOf(item.payload) == Some(card)
    ensures RejectedOnce([Row(item, None)], card, now) == [Row(Tried(item, 1), None)]
  {
    var rows := [Row(item, None)];
    OnePending(item);
    NoneAccepted([item]);
    NothingCompleted(rows, now);
    OneBumped(rows, item, card);
    OneRetried(item);
  }

  /** No number of retries takes an item out of the pending ones: for every n there are uploads that leave
      it there with n retries more. */
  lemma {:induction false} RetriesAreUncapped(item: Item, card: string, now: int, n: nat)
    requires CardIdOf(item.payload) == Some(card)
    ensures RejectedTimes([Row(item, None)], card, now, n) == [Row(Tried(item, n), None)]
    ensures PendingItems(RejectedTimes([Row(item, None)], card, now, n)) == [Tried(item, n)]
  {
    OnePending(Tried(item, n));
    if n > 0 {
      RetriesAreUncapped(item, card, now, n - 1);
      OneRejection(Tried(item, n - 1), card, now);
    }
  }

  class SyncEngine {
    const queue: SyncQueue
    /** The default of the local_version column, declared with the table's schema. */
    const versionDefault: int
    var cards: Table
    var cursor: Option<Cursor>
    var history: seq<SyncStatus>

    ghost predicate Valid() reads this, queue {
      Keyed(cards) && queue.Valid()
    }

    constructor (queue: SyncQueue, versionDefault: int)
      requires queue.Valid()
      ensures Valid() && this.queue == queue && cards == map[] && cursor == None && history == []
    {
      this.queue := queue;
      this.versionDefault := versionDefault;
      cards, cursor, history := map[], None, [];
    }

    /** SELECT * FROM cards, in whatever order the table yields. */
    method GetLocalCards() returns (locals: seq<LocalCard>)
      requires Keyed(cards)
      ensures Distinct(Ids(LocalId, locals)) && Index(LocalId, locals).at == cards
    {
      locals := [];
      var todo := cards.Keys;
      while todo != {}
        invariant Listed(cards, locals, todo)
        decreases todo
      {
        var k :| k in todo;
        ListOneMore(cards, locals, todo, k);
        locals := locals + [cards[k]];
        todo := todo - {k};
      }
    }

    method ApplyServerCards(list: seq<Card>, insert: bool, now: int)
      modifies this`cards
      ensures cards == if insert then Inserted(old(cards), list, 0, now) else UpdatedTable(old(cards), list)
      ensures forall k :: ListedAt(old(cards), list, insert, now, cards, k)
    {
      for i := 0 to |list|
        invariant cards ==
          if insert then Inserted(old(cards), list[..i], 0, now) else UpdatedTable(old(cards), list[..i])
      {
        var c := list[i];
        assert list[..i + 1][..i] == list[..i];
        if insert {
          cards := cards[c.id := LocalCard(c, 0, None, false, now)];
        } else if c.id in cards {
          var row := cards[c.id];
          cards := cards[c.id := row.(card := c.(id := row.card.id,
            origin := c.origin.(createdAt := row.card.origin.createdAt)), dirty := false)];
        }
      }
      assert list[..|list|] == list;
      forall k ensures ListedAt(old(cards), list, insert, now, cards, k) {
        ListedRow(old(cards), list, insert, now, k);
      }
    }

    method RemoveServerCards(ids: seq<string>)
      modifies this`cards
      ensures cards == old(cards) - (set k | k in ids)
    {
      if ids == [] {
        assert cards == cards - (set k | k in ids);
        return;
      }
      cards := cards - (set k | k in ids);
    }

    /** Steps 1 to 7; `reply` is the server's, `now` the clock. A failed request throws (ok is false)
        and leaves queue and cards alone. */
    method UploadChanges(deviceId: string, reply: Reply<Response>, now: int)
      returns (ok: bool, report: UploadResult, pending: seq<Item>, request: seq<Change>)
      requires Valid()
      modifies this`cards, this`cursor, queue
      ensures Valid()
      ensures IsPendingAnswer(old(queue.rows), pending)
      ensures pending != [] ==> SendsNewest(pending, request) && IsPayloadOf(pending, request)
      ensures ok == (pending == [] || reply.Body?)
      ensures report ==
        if pending == [] || !ok then UploadResult(0, 0, 0, 0, 0)
        else UploadResult(|pending|, |reply.value.accepted|, |reply.value.rejected|, |reply.value.newCards|,
                          |reply.value.updatedCards|)
      ensures pending == [] || !ok ==>
        && queue.rows == old(queue.rows) && cards == old(cards)
        && cursor == if old(cursor).None? then Some(Cursor(deviceId, 0, 0)) else old(cursor)
      ensures pending != [] && ok ==>
        && CompletesExactly(old(queue.rows), queue.rows, reply.value.accepted, now)
        && RetriesExactly(old(queue.rows), queue.rows, pending, reply.value.rejected)
        && queue.rows == Bumped(Completed(old(queue.rows), Protocol.AcceptedIds(pending, reply.value.accepted), now),
                                pending, reply.value.rejected)
        && cursor == Some(Cursor(deviceId, reply.value.serverVersion, now))
        && cards == Answered(old(cards), reply.value, now)
        && forall k :: AnsweredAt(old(cards), reply.value, now, cards, k)
    {
      request, report := [], NOTHING_UPLOADED;
      if cursor.None? {
        cursor := Some(Cursor(deviceId, 0, 0));
      }
      pending := queue.GetPending();
      if pending == [] {
        return true, report, pending, request;
      }
      request := BuildLocalChangePayload(pending);
      if reply.HttpError? {
        return false, report, pending, request;
      }
      var result := reply.value;
      SettleQueue(pending, result, now);
      cursor := Some(Cursor(deviceId, result.serverVersion, now));
      ApplyAnswer(result, now);
      ok := true;
      report := Counts(pending, result);
    }

    /** Steps 4 and 5: complete what was accepted, count what was rejected. */
    method SettleQueue(pending: seq<Item>, result: Response, now: int)
      requires queue.Valid() && IsPendingAnswer(queue.rows, pending)
      modifies queue
      ensures queue.Valid()
      ensures CompletesExactly(old(queue.rows), queue.rows, result.accepted, now)
      ensures RetriesExactly(old(queue.rows), queue.rows, pending, result.rejected)
      ensures queue.rows == Bumped(Completed(old(queue.rows), Protocol.AcceptedIds(pending, result.accepted), now),
                                   pending, result.rejected)
    {
      ghost var before := queue.rows;
      var completedQueueIds := FilterAccepted(pending, result.accepted);
      queue.CompleteBatch(completedQueueIds, now);
      CompletionIsExact(before, pending, result.accepted, now);
      CountRejections(pending, result.rejected);
      ghost var completed := Completed(before, completedQueueIds, now);
      BumpsKeepCompletion(before, completed, pending, result.rejected, result.accepted, now);
      BumpsAreExact(before, completed, pending, result.rejected);
    }

    /** Step 7: the three card lists. */
    method ApplyAnswer(result: Response, now: int)
      requires Keyed(cards)
      modifies this`cards
      ensures Keyed(cards) && cards == Answered(old(cards), result, now)
      ensures forall k :: AnsweredAt(old(cards), result, now, cards, k)
    {
      ApplyServerCards(result.newCards, true, now);
      ApplyServerCards(result.updatedCards, false, now);
      RemoveServerCards(result.removedCards);
      AnsweredKeyed(old(cards), result, now);
      forall k ensures AnsweredAt(old(cards), result, now, cards, k) {
        AnsweredRow(old(cards), result, now, k);
      }
    }

    method FilterAccepted(pending: seq<Item>, accepted: seq<string>) returns (ids: seq<string>)
      ensures ids == Protocol.AcceptedIds(pending, accepted)
    {
      ids := [];
      for i := 0 to |pending|
        invariant ids == Protocol.AcceptedIds(pending[..i], accepted)
      {
        assert pending[..i + 1][..i] == pending[..i];
        var cardId := CardIdOf(pending[i].payload);
        if cardId.Some? && cardId.value != "" && cardId.value in accepted {
          ids := ids + [pending[i].id];
        }
      }
      assert pending[..|pending|] == pending;
    }

    method CountRejections(pending: seq<Item>, rejected: seq<Rejected>)
      requires queue.Valid()
      modifies queue
      ensures queue.Valid() && queue.rows == Bumped(old(queue.rows), pending, rejected)
    {
      for i := 0 to |rejected|
        invariant queue.Valid() && queue.rows == Bumped(old(queue.rows), pending, rejected[..i])
      {
        assert rejected[..i + 1][..i] == rejected[..i];
        var queueItem := FirstOf(pending, rejected[i].cardId);
        if queueItem.Some? {
          queue.IncrementRetry(queueItem.value.id);
        }
      }
      assert rejected[..|rejected|] == rejected;
    }

    method ApplyMergedCards(list: seq<Card>, now: int)
      modifies this`cards
      ensures cards == Inserted(old(cards), list, versionDefault, now)
    {
      for i := 0 to |list|
        invariant cards == Inserted(old(cards), list[..i], versionDefault, now)
      {
        assert list[..i + 1][..i] == list[..i];
        cards := cards[list[i].id := LocalCard(list[i], versionDefault, None, false, now)];
      }
      assert list[..|list|] == list;
    }

    method EnqueueAll(changes: seq<Change>, ids: nat -> string, now: int) returns (ok: bool)
      requires queue.Valid()
      modifies queue
      ensures queue.Valid()
      ensures ok == Distinct(Ids(RowId, old(queue.rows) + UploadRows(changes, ids, now)))
      ensures ok ==> queue.rows == old(queue.rows) + UploadRows(changes, ids, now)
    {
      ghost var before := queue.rows;
      assert before + UploadRows(changes[..0], ids, now) == before;
      for i := 0 to |changes|
        invariant queue.Valid() && queue.rows == before + UploadRows(changes[..i], ids, now)
      {
        assert changes[..i + 1][..i] == changes[..i];
        assert before + UploadRows(changes[..i + 1], ids, now) ==
          (before + UploadRows(changes[..i], ids, now)) +
          [Row(Item(ids(i), UpdateCard, PayloadOf(changes[i]), now, 0), None)];
        var done := queue.Enqueue(UpdateCard, PayloadOf(changes[i]), ids(i), now);
        if !done {
          RepeatedRowStays(before, changes, ids, now, i);
          return false;
        }
      }
      assert changes[..|changes|] == changes;
      ok := true;
    }

    /** Merge, apply and enqueue as one step. `ids` are the generated queue ids; a repeated one throws.
        Whenever it completes, every unsynced decision of the table is queued exactly once with its
        version, state and text, whichever side won the state. Each card is reconciled with the server's and
        left clean, without a decision. */
    method DownloadUpdates(dp: DateParse, reply: Reply<seq<Card>>, ids: nat -> string, now: int)
      returns (ok: bool, report: DownloadResult, toUpload: seq<Change>, ghost locals: seq<LocalCard>)
      requires Valid()
      modifies this`cards, queue
      ensures Valid()
      ensures reply.Body? ==>
        && Distinct(Ids(LocalId, locals)) && Index(LocalId, locals).at == old(cards)
        && cards == Inserted(old(cards), Merged(dp, locals, reply.value).cards, versionDefault, now)
        && toUpload == Merged(dp, locals, reply.value).toUpload
        && report == DownloadResult(|reply.value|, |Merged(dp, locals, reply.value).cards|,
                                    Merged(dp, locals, reply.value).conflicts)
      ensures reply.HttpError? ==> !ok && cards == old(cards) && queue.rows == old(queue.rows)
      ensures reply.Body? ==> ok == Distinct(Ids(RowId, old(queue.rows) + UploadRows(toUpload, ids, now)))
      ensures ok ==> queue.rows == old(queue.rows) + UploadRows(toUpload, ids, now)
      ensures ok ==> old(queue.rows) <= queue.rows
      ensures ok ==> FreshlyQueued(queue.rows[|old(queue.rows)|..], ids, now)
      ensures ok ==> forall k :: AsksForDecision(old(cards), queue.rows[|old(queue.rows)|..], k)
      ensures reply.Body? ==> AllClean(cards) && forall k :: k in cards ==>
        cards[k] == LocalCard(cards[k].card, versionDefault, None, false, now)
      ensures reply.Body? && Distinct(Ids(CardId, reply.value)) ==>
        && CardsOf(cards) == Downloaded(dp, old(cards), Index(CardId, reply.value).at)
        && (forall k :: ReconciledAt(dp, old(cards), Index(CardId, reply.value).at, CardsOf(cards), k))
        && (forall k :: LogsAt(old(cards), Index(CardId, reply.value).at, report.conflicts, k))
    {
      toUpload, locals, report := [], [], NOTHING_DOWNLOADED;
      if reply.HttpError? {
        return false, report, toUpload, locals;
      }
      var serverCards := reply.value;
      var localCards := GetLocalCards();
      locals := localCards;
      var mergeResult := MergeCards(dp, localCards, serverCards);
      ApplyMergedCards(mergeResult.cards, now);
      toUpload := mergeResult.toUpload;
      report := DownloadResult(|serverCards|, |mergeResult.cards|, mergeResult.conflicts);
      AppliedIsClean(dp, old(cards), localCards, serverCards, versionDefault, now);
      if Distinct(Ids(CardId, serverCards)) {
        AppliedIsJoin(dp, old(cards), localCards, serverCards, versionDefault, now);
        AppliedReconciles(dp, old(cards), localCards, serverCards, versionDefault, now);
      }
      ok := EnqueueAll(toUpload, ids, now);
      UploadsAreQueued(dp, old(cards), localCards, serverCards, ids, now);
      assert queue.rows == old(queue.rows) + UploadRows(toUpload, ids, now) ==>
        queue.rows[|old(queue.rows)|..] == UploadRows(toUpload, ids, now);
    }

    /** The first phase of a cycle; a failed upload leaves the report. */
    method UploadPhase(deviceId: string, upload: Reply<Response>, now: int, before: Report)
      returns (error: bool, report: Report, ghost pending: seq<Item>)
      requires Valid()
      modifies this`cards, this`cursor, queue
      ensures Valid() && IsPendingAnswer(old(queue.rows), pending)
      ensures error == (pending != [] && upload.HttpError?)
      ensures report == if error then before else WithUpload(before, UploadCounts(pending, upload))
      ensures error ==> cards == old(cards) && queue.rows == old(queue.rows)
      ensures cursor == CursorAfter(old(cursor), deviceId, pending, upload, now)
    {
      var uploaded, counts, snapshot, request := UploadChanges(deviceId, upload, now);
      pending := snapshot;
      error := !uploaded;
      report := if uploaded then WithUpload(before, counts) else before;
    }

    /** The second phase of a cycle; a failed download leaves the report. */
    method DownloadPhase(dp: DateParse, batch: Reply<seq<Card>>, ids: nat -> string, now: int, before: Report)
      returns (error: bool, report: Report, ghost down: Option<DownloadResult>)
      requires Valid()
      modifies this`cards, queue
      ensures Valid() && error == down.None?
      ensures report == if down.None? then before else WithDownload(before, down.value)
      ensures down.Some? ==> batch.Body? && AllClean(cards) && down.value.newCards == |batch.value|
    {
      var downloaded, counts, changes, locals := DownloadUpdates(dp, batch, ids, now);
      down := if downloaded then Some(counts) else None;
      error := !downloaded;
      report := if downloaded then WithDownload(before, counts) else before;
    }

    /** A full cycle: an error in the upload keeps the download from running, and a part that failed adds
        nothing to the report. `pending` is the queue snapshot, `down` the result of a completed download. */
    method Sync(dp: DateParse, deviceId: string, upload: Reply<Response>, batch: Reply<seq<Card>>,
                ids: nat -> string, now: int)
      returns (report: Report, ghost pending: seq<Item>, ghost down: Option<DownloadResult>)
      requires Valid()
      modifies this, queue
      ensures Valid() && IsPendingAnswer(old(queue.rows), pending)
      ensures history == old(history) + [if report.error then Failed else Succeeded]
      ensures cursor == CursorAfter(old(cursor), deviceId, pending, upload, now)
      ensures report.error == down.None?
      ensures pending != [] && upload.HttpError? ==>
        down == None && cards == old(cards) && queue.rows == old(queue.rows)
      ensures down.Some? ==> batch.Body? && AllClean(cards) && down.value.newCards == |batch.value|
      ensures Reports(report, pending, upload, down)
    {
      down := None;
      var error;
      error, report, pending := UploadPhase(deviceId, upload, now, NO_REPORT);
      if !error {
        error, report, down := DownloadPhase(dp, batch, ids, now, report);
      }
      report := report.(error := error);
      history := history + [if error then Failed else Succeeded];
    }
  }

  /** The counters of a cycle: the upload's if it was answered, plus the download's if it completed. */
  ghost predicate Reports(report: Report, pending: seq<Item>, upload: Reply<Response>, down: Option<DownloadResult>) {
    var answered := pending != [] && upload.Body?;
    && report.uploaded == (if answered then |pending| else 0)
    && report.accepted == (if answered then |upload.value.accepted| else 0)
    && report.rejected == (if answered then |upload.value.rejected| else 0)
    && report.newCards == (if answered then |upload.value.newCards| else 0) +
                          (if down.Some? then down.value.newCards else 0)
    && report.updatedCards == (if answered then |upload.value.updatedCards| else 0) +
                              (if down.Some? then down.value.updatedCards else 0)
    && report.conflicts == if down.Some? then down.value.conflicts else []
  }

  lemma AnsweredKeyed(t: Table, r: Response, now: int)
    requires Keyed(t)
    ensures Keyed(Answered(t, r, now))
  {
    InsertedKeyed(t, r.newCards, 0, now);
    UpdatedKeyed(Inserted(t, r.newCards, 0, now), r.updatedCards);
  }

  lemma {:induction false} InsertedKeyed(t: Table, cards: seq<Card>, version: int, now: int)
    requires Keyed(t)
    ensures Keyed(Inserted(t, cards, version, now))
  {
    if cards != [] {
      InsertedKeyed(t, cards[..|cards| - 1], version, now);
    }
  }

  lemma {:induction false} UpdatedKeyed(t: Table, cards: seq<Card>)
    requires Keyed(t)
    ensures Keyed(UpdatedTable(t, cards))
  {
    if cards != [] {
      UpdatedKeyed(t, cards[..|cards| - 1]);
    }
  }

  /** The rows a download queues. */
  lemma UploadsAreQueued(dp: DateParse, t: Table, locals: seq<LocalCard>, server: seq<Card>, ids: nat -> string,
                         now: int)
    requires Index(LocalId, locals).at == t
    ensures var rows := UploadRows(Merged(dp, locals, server).toUpload, ids, now);
      FreshlyQueued(rows, ids, now) && forall k :: AsksForDecision(t, rows, k)
  {
    var changes := Merged(dp, locals, server).toUpload;
    forall i | 0 <= i < |changes|
      ensures UploadRows(changes, ids, now)[i] == Row(Item(ids(i), UpdateCard, PayloadOf(changes[i]), now, 0), None) {
      UploadRowsAt(changes, ids, now, i);
    }
    forall k ensures AsksForDecision(t, UploadRows(changes, ids, now), k) {
      UploadsAreTheDecisions(dp, locals, server, k);
      QueuedReadBack(changes, ids, now, k);
    }
  }

  lemma AppliedReconciles(dp: DateParse, t: Table, locals: seq<LocalCard>, server: seq<Card>, version: int, now: int)
    requires Index(LocalId, locals).at == t && Distinct(Ids(CardId, server))
    ensures
      var s, after := Index(CardId, server).at, CardsOf(Inserted(t, Merged(dp, locals, server).cards, version, now));
      && (forall k :: ReconciledAt(dp, t, s, after, k))
      && (forall k :: LogsAt(t, s, Merged(dp, locals, server).conflicts, k))
  {
    var s, list := Index(CardId, server).at, Merged(dp, locals, server).cards;
    forall k ensures ReconciledAt(dp, t, s, CardsOf(Inserted(t, list, version, now)), k) {
      MergedReconciledAt(dp, locals, server, k);
      InsertedAt(t, list, version, now, k);
      IndexHas(CardId, list, k);
    }
    forall k ensures LogsAt(t, s, Merged(dp, locals, server).conflicts, k) {
      ConflictsAreTheDecisions(dp, locals, server, k);
    }
  }

  /** Every old row is among the merged cards, so applying them cleans the whole table. */
  lemma AppliedIsClean(dp: DateParse, t: Table, locals: seq<LocalCard>, server: seq<Card>, version: int, now: int)
    requires Keyed(t) && Index(LocalId, locals).at == t
    ensures var after := Inserted(t, Merged(dp, locals, server).cards, version, now);
      Keyed(after) && AllClean(after) &&
      forall k :: k in after ==> after[k] == LocalCard(after[k].card, version, None, false, now)
  {
    var list := Merged(dp, locals, server).cards;
    InsertedKeyed(t, list, version, now);
    CardSidesKeepIds(dp);
    var after := Inserted(t, list, version, now);
    forall k | k in after ensures after[k] == LocalCard(after[k].card, version, None, false, now) {
      InsertedAt(t, list, version, now, k);
      IndexHas(LocalId, locals, k);
      MergedIdsAreTheUnion(CardSides(dp), locals, server, k);
      IndexHas(CardId, list, k);
    }
  }

  lemma AppliedIsJoin(dp: DateParse, t: Table, locals: seq<LocalCard>, server: seq<Card>, version: int, now: int)
    requires Keyed(t) && Index(LocalId, locals).at == t && Distinct(Ids(CardId, server))
    ensures CardsOf(Inserted(t, Merged(dp, locals, server).cards, version, now)) ==
            Downloaded(dp, t, Index(CardId, server).at)
  {
    var list := Merged(dp, locals, server).cards;
    var after, want := CardsOf(Inserted(t, list, version, now)), Downloaded(dp, t, Index(CardId, server).at);
    forall k ensures k in after <==> k in want ensures k in after ==> after[k] == want[k] {
      AppliedAt(dp, t, locals, server, version, now, k);
    }
  }

  lemma AppliedAt(dp: DateParse, t: Table, locals: seq<LocalCard>, server: seq<Card>, version: int, now: int, k: string)
    requires Index(LocalId, locals).at == t && Distinct(Ids(CardId, server))
    ensures var after, s := Inserted(t, Merged(dp, locals, server).cards, version, now), Index(CardId, server).at;
      (k in after <==> k in t || k in s) && (k in after ==> after[k].card == JoinAt(CardSides(dp), t, s, k))
  {
    var list := Merged(dp, locals, server).cards;
    CardSidesKeepIds(dp);
    InsertedAt(t, list, version, now, k);
    IndexHas(CardId, list, k);
    IndexHas(CardId, server, k);
    IndexHas(LocalId, locals, k);
    MergedIndexIsJoin(CardSides(dp), locals, server, k);
  }

  /** A generated id that repeats one already there repeats it in the full list too. */
  lemma RepeatedRowStays(before: seq<Row>, changes: seq<Change>, ids: nat -> string, now: int, i: int)
    requires 0 <= i < |changes|
    requires ids(i) in Ids(RowId, before + UploadRows(changes[..i], ids, now))
    ensures !Distinct(Ids(RowId, before + UploadRows(changes, ids, now)))
  {
    var all := before + UploadRows(changes, ids, now);
    var n := |before| + i;
    UploadRowsPrefix(changes, ids, now, i);
    UploadRowsAt(changes, ids, now, i);
    assert all[..n] == before + UploadRows(changes[..i], ids, now);
    IdsPrefix(RowId, all, n);
    IdsAt(RowId, all, n);
    var m :| 0 <= m < n && Ids(RowId, all)[..n][m] == ids(i);
    assert Ids(RowId, all)[m] == Ids(RowId, all)[n];
  }

  lemma {:induction false} UploadRowsPrefix(changes: seq<Change>, ids: nat -> string, now: int, i: int)
    requires 0 <= i <= |changes|
    ensures UploadRows(changes, ids, now)[..i] == UploadRows(changes[..i], ids, now)
  {
    if i == |changes| {
      assert changes[..i] == changes;
    } else {
      UploadRowsPrefix(changes[..|changes| - 1], ids, now, i);
      assert changes[..|changes| - 1][..i] == changes[..i];
    }
  }

  lemma {:induction false} UploadRowsAt(changes: seq<Change>, ids: nat -> string, now: int, i: int)
    requires 0 <= i < |changes|
    ensures UploadRows(changes, ids, now)[i] == Row(Item(ids(i), UpdateCard, PayloadOf(changes[i]), now, 0), None)
  {
    if i < |changes| - 1 {
      UploadRowsAt(changes[..|changes| - 1], ids, now, i);
    }
  }
}
