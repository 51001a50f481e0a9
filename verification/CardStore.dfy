/** The in-memory card queue of client/src/stores/cardStore.ts. */
module CardStores {
  import opened Collections
  import opened Crdt

  // ---------------------------------------------------------------------------
  // Text order: JavaScript's `<` on strings
  // ---------------------------------------------------------------------------

  predicate TextLess(a: string, b: string) {
    if b == "" then false
    else if a == "" then true
    else if a[0] != b[0] then a[0] < b[0]
    else TextLess(a[1..], b[1..])
  }

  /** The texts agree up to `k`, where `a` ends or has the smaller character. */
  ghost predicate LessAt(a: string, b: string, k: int) {
    && 0 <= k <= |a| && k < |b| && (forall i :: 0 <= i < k ==> a[i] == b[i])
    && (k < |a| ==> a[k] < b[k])
  }

  lemma {:induction false} TextLessIff(a: string, b: string)
    ensures TextLess(a, b) <==> exists k :: LessAt(a, b, k)
  {
    if a == "" {
      assert b != "" ==> LessAt(a, b, 0);
    } else if b != "" && a[0] == b[0] {
      TextLessIff(a[1..], b[1..]);
      if TextLess(a[1..], b[1..]) {
        var k :| LessAt(a[1..], b[1..], k);
        assert LessAt(a, b, k + 1);
      }
      forall k | LessAt(a, b, k) ensures LessAt(a[1..], b[1..], k - 1) {
      }
    } else if b != "" {
      assert a[0] < b[0] ==> LessAt(a, b, 0);
    }
  }

  lemma {:induction false} TextLessIrreflexive(a: string)
    ensures !TextLess(a, a)
  {
    if a != "" {
      TextLessIrreflexive(a[1..]);
    }
  }

  /** Of two texts that are not less than a third, and the third not less than them, none is less. */
  lemma {:induction false} TextLessNegativelyTransitive(a: string, b: string, c: string)
    requires !TextLess(a, b) && !TextLess(b, c)
    ensures !TextLess(a, c)
  {
    if a != "" && b != "" && c != "" && a[0] == b[0] == c[0] {
      TextLessNegativelyTransitive(a[1..], b[1..], c[1..]);
    }
  }

  lemma {:induction false} TextLessAsymmetric(a: string, b: string)
    requires TextLess(a, b)
    ensures !TextLess(b, a)
  {
    if a != "" && a[0] == b[0] {
      TextLessAsymmetric(a[1..], b[1..]);
    }
  }

  // ---------------------------------------------------------------------------
  // loadBatch
  // ---------------------------------------------------------------------------

  function Urgency(c: Card): real { c.urgency }

  /** `findIndex((c) => c.id === id)`, |cards| when there is none. */
  function IndexOf(cards: seq<Card>, id: string): (i: nat)
    ensures i <= |cards|
  {
    if cards == [] then 0 else if cards[0].id == id then 0 else 1 + IndexOf(cards[1..], id)
  }

  lemma {:induction false} IndexOfFinds(cards: seq<Card>, id: string)
    ensures forall j :: 0 <= j < IndexOf(cards, id) ==> cards[j].id != id
    ensures IndexOf(cards, id) < |cards| ==> cards[IndexOf(cards, id)].id == id
  {
    if cards != [] && cards[0].id != id {
      IndexOfFinds(cards[1..], id);
      forall j | 0 <= j < IndexOf(cards, id) ensures cards[j].id != id {
        assert j > 0 ==> cards[1..][j - 1] == cards[j];
      }
    }
  }

  function Put(cards: seq<Card>, card: Card): seq<Card> {
    var i := IndexOf(cards, card.id);
    if i == |cards| then cards + [card]
    else if TextLess(cards[i].updatedAt, card.updatedAt) then cards[i := card]
    else cards
  }

  function PutAll(cards: seq<Card>, batch: seq<Card>): seq<Card> {
    if batch == [] then cards else Put(PutAll(cards, batch[..|batch| - 1]), batch[|batch| - 1])
  }

  /** The card a queue holds for an id. */
  function At(cards: seq<Card>, id: string): Option<Card> {
    var i := IndexOf(cards, id);
    if i == |cards| then None else Some(cards[i])
  }

  ghost predicate FirstOfItsId(cards: seq<Card>, i: int) {
    0 <= i < |cards| && forall j :: 0 <= j < i ==> cards[j].id != cards[i].id
  }

  lemma DistinctAreFirst(cards: seq<Card>, i: int)
    requires Distinct(Ids(CardId, cards)) && 0 <= i < |cards|
    ensures FirstOfItsId(cards, i)
  {
    IdsAt(CardId, cards, i);
    forall j | 0 <= j < i ensures cards[j].id != cards[i].id {
      IdsAt(CardId, cards, j);
    }
  }

  lemma {:induction false} IndexOfFirst(cards: seq<Card>, i: int)
    requires FirstOfItsId(cards, i)
    ensures IndexOf(cards, cards[i].id) == i
  {
    if i > 0 {
      assert cards[0].id != cards[i].id;
      IndexOfFirst(cards[1..], i - 1);
    }
  }

  lemma OnlyIndex(cards: seq<Card>, i: int)
    requires Distinct(Ids(CardId, cards)) && 0 <= i < |cards|
    ensures IndexOf(cards, cards[i].id) == i
  {
    DistinctAreFirst(cards, i);
    IndexOfFirst(cards, i);
  }

  /** In a queue without repeated ids, being at an id is being in the queue. */
  lemma AtIsMember(cards: seq<Card>, c: Card)
    requires Distinct(Ids(CardId, cards))
    ensures At(cards, c.id) == Some(c) <==> c in cards
  {
    IndexOfFinds(cards, c.id);
    if c in cards {
      var i :| 0 <= i < |cards| && cards[i] == c;
      OnlyIndex(cards, i);
    }
  }

  lemma AtHas(cards: seq<Card>, id: string)
    ensures At(cards, id).Some? <==> id in Ids(CardId, cards)
    ensures At(cards, id).Some? ==> At(cards, id).value in cards && At(cards, id).value.id == id
  {
    IndexOfFinds(cards, id);
    var i := IndexOf(cards, id);
    if i < |cards| {
      IdsAt(CardId, cards, i);
    }
    if id in Ids(CardId, cards) {
      var j :| 0 <= j < |cards| && Ids(CardId, cards)[j] == id;
      IdsAt(CardId, cards, j);
    }
  }

  lemma OneId(x: Card)
    ensures Ids(CardId, [x]) == [x.id]
  {
    assert [x][..0] == [];
  }

  lemma PutIds(cards: seq<Card>, card: Card)
    ensures Ids(CardId, Put(cards, card)) ==
      Ids(CardId, cards) + if card.id in Ids(CardId, cards) then [] else [card.id]
  {
    var i := IndexOf(cards, card.id);
    IndexOfFinds(cards, card.id);
    AtHas(cards, card.id);
    if i == |cards| {
      IdsAppend(CardId, cards, [card]);
      OneId(card);
    } else {
      var r, ids := Put(cards, card), Ids(CardId, cards);
      assert ids + [] == ids;
      forall j | 0 <= j < |cards| ensures Ids(CardId, r)[j] == ids[j] {
        IdsAt(CardId, cards, j);
        IdsAt(CardId, r, j);
      }
    }
  }

  lemma {:induction false} PutAllIds(cards: seq<Card>, batch: seq<Card>, k: string)
    requires Distinct(Ids(CardId, cards))
    ensures Distinct(Ids(CardId, PutAll(cards, batch)))
    ensures k in Ids(CardId, PutAll(cards, batch)) <==> k in Ids(CardId, cards) || k in Ids(CardId, batch)
  {
    if batch != [] {
      var init, last := batch[..|batch| - 1], batch[|batch| - 1];
      PutAllIds(cards, init, k);
      PutIds(PutAll(cards, init), last);
      if last.id !in Ids(CardId, PutAll(cards, init)) {
        DistinctAppend(Ids(CardId, PutAll(cards, init)), last.id);
      } else {
        assert Ids(CardId, PutAll(cards, init)) + [] == Ids(CardId, PutAll(cards, init));
      }
    }
  }

  /** `r` is one of the cards with its id, and none of them was updated later. */
  ghost predicate IsNewest(r: Card, cards: seq<Card>) {
    r in cards && forall c :: c in cards && c.id == r.id ==> !TextLess(r.updatedAt, c.updatedAt)
  }

  lemma PutAt(cards: seq<Card>, card: Card, k: string)
    requires Distinct(Ids(CardId, cards))
    ensures At(Put(cards, card), k) ==
      if k != card.id then At(cards, k)
      else if At(cards, k).None? || TextLess(At(cards, k).value.updatedAt, card.updatedAt) then Some(card)
      else At(cards, k)
  {
    var i := IndexOf(cards, card.id);
    IndexOfFinds(cards, card.id);
    IndexOfFinds(cards, k);
    if i == |cards| {
      IndexAppend(cards, card, k);
    } else if TextLess(cards[i].updatedAt, card.updatedAt) {
      IndexReplace(cards, card, i, k);
    }
  }

  lemma {:induction false} IndexAppend(cards: seq<Card>, card: Card, k: string)
    ensures IndexOf(cards + [card], k) ==
      if IndexOf(cards, k) < |cards| then IndexOf(cards, k) else if card.id == k then |cards| else |cards| + 1
  {
    if cards == [] {
      assert [] + [card] == [card];
      assert [card][1..] == [];
    } else {
      IndexAppend(cards[1..], card, k);
      assert (cards + [card])[1..] == cards[1..] + [card];
    }
  }

  lemma {:induction false} IndexReplace(cards: seq<Card>, card: Card, i: int, k: string)
    requires 0 <= i < |cards| && cards[i].id == card.id
    ensures IndexOf(cards[i := card], k) == IndexOf(cards, k)
  {
    if i > 0 {
      IndexReplace(cards[1..], card, i - 1, k);
      assert cards[i := card][1..] == cards[1..][i - 1 := card];
    } else {
      assert cards[i := card][1..] == cards[1..];
    }
  }

  lemma NewestStep(r: Option<Card>, all: seq<Card>, card: Card, k: string)
    requires r.Some? ==> r.value.id == k && IsNewest(r.value, all)
    requires r.None? ==> forall c :: c in all ==> c.id != k
    ensures var t := if k != card.id then r
        else if r.None? || TextLess(r.value.updatedAt, card.updatedAt) then Some(card) else r;
      (t.Some? ==> t.value.id == k && IsNewest(t.value, all + [card])) &&
      (t.None? ==> forall c :: c in all + [card] ==> c.id != k)
  {
    TextLessIrreflexive(card.updatedAt);
    if k == card.id && r.Some? && TextLess(r.value.updatedAt, card.updatedAt) {
      TextLessAsymmetric(r.value.updatedAt, card.updatedAt);
      forall c | c in all && c.id == k ensures !TextLess(card.updatedAt, c.updatedAt) {
        TextLessNegativelyTransitive(card.updatedAt, r.value.updatedAt, c.updatedAt);
      }
    }
  }

  /** For every id the merge keeps a newest of all the cards seen, by text order of their update times. */
  lemma {:induction false} PutAllNewest(cards: seq<Card>, batch: seq<Card>, k: string)
    requires Distinct(Ids(CardId, cards))
    ensures var r := At(PutAll(cards, batch), k);
      (r.Some? ==> r.value.id == k && IsNewest(r.value, cards + batch)) &&
      (r.None? ==> forall c :: c in cards + batch ==> c.id != k)
  {
    if batch == [] {
      assert cards + batch == cards;
      AtOfDistinct(cards, k);
    } else {
      var init, last := batch[..|batch| - 1], batch[|batch| - 1];
      PutAllNewest(cards, init, k);
      PutAllIds(cards, init, k);
      PutAt(PutAll(cards, init), last, k);
      NewestStep(At(PutAll(cards, init), k), cards + init, last, k);
      assert cards + batch == (cards + init) + [last];
    }
  }

  lemma AtOfDistinct(cards: seq<Card>, k: string)
    requires Distinct(Ids(CardId, cards))
    ensures At(cards, k).Some? ==> At(cards, k).value.id == k && IsNewest(At(cards, k).value, cards)
    ensures At(cards, k).None? ==> forall c :: c in cards ==> c.id != k
  {
    IndexOfFinds(cards, k);
    if At(cards, k).Some? {
      TextLessIrreflexive(At(cards, k).value.updatedAt);
      forall c | c in cards && c.id == k ensures c == At(cards, k).value {
        AtIsMember(cards, c);
      }
    }
  }

  /** What loading a batch leaves in the queue. */
  ghost predicate IsLoaded(cards: seq<Card>, batch: seq<Card>, r: seq<Card>) {
    && Distinct(Ids(CardId, r)) && (forall i, j :: 0 <= i < j < |r| ==> r[i].urgency >= r[j].urgency)
    && (forall c :: c in r ==> IsNewest(c, cards + batch))
    && (forall c :: c in cards + batch ==> c.id in Ids(CardId, r))
  }

  lemma SortKeepsIds(cards: seq<Card>)
    requires Distinct(Ids(CardId, cards))
    ensures Distinct(Ids(CardId, SortDesc(Urgency, cards)))
    ensures forall k :: k in Ids(CardId, SortDesc(Urgency, cards)) <==> k in Ids(CardId, cards)
  {
    var s := SortDesc(Urgency, cards);
    SortDescSorts(Urgency, cards);
    DistinctIdsDistinctItems(CardId, cards);
    forall k ensures k in Ids(CardId, s) <==> k in Ids(CardId, cards) {
      AtHas(s, k);
      AtHas(cards, k);
      if k in Ids(CardId, s) {
        var i :| 0 <= i < |cards| && cards[i] == At(s, k).value;
        IdsAt(CardId, cards, i);
      }
      if k in Ids(CardId, cards) {
        var i :| 0 <= i < |s| && s[i] == At(cards, k).value;
        IdsAt(CardId, s, i);
      }
    }
    forall i, j | 0 <= i < j < |s| ensures Ids(CardId, s)[i] != Ids(CardId, s)[j] {
      IdsAt(CardId, s, i);
      IdsAt(CardId, s, j);
      if s[i].id == s[j].id {
        AtIsMember(cards, s[i]);
        AtIsMember(cards, s[j]);
        TwiceInMultiset(s, i, j);
        DistinctMultiplicity(cards, s[i]);
      }
    }
  }

  lemma TwiceInMultiset(s: seq<Card>, i: int, j: int)
    requires 0 <= i < j < |s| && s[i] == s[j]
    ensures multiset(s)[s[i]] >= 2
  {
    assert s == s[..j] + s[j..];
    assert s[i] in s[..j] by { assert s[..j][i] == s[i]; }
    assert s[j] in s[j..] by { assert s[j..][0] == s[j]; }
    assert multiset(s) == multiset(s[..j]) + multiset(s[j..]);
  }

  /** The queue is without repetition, sorted, the union of both sides, and newest per id. */
  lemma LoadedIsNewestUnion(cards: seq<Card>, batch: seq<Card>)
    requires Distinct(Ids(CardId, cards))
    ensures IsLoaded(cards, batch, SortDesc(Urgency, PutAll(cards, batch)))
  {
    var m := PutAll(cards, batch);
    PutAllIds(cards, batch, "");
    SortKeepsIds(m);
    SortDescSorts(Urgency, m);
    ghost var r := SortDesc(Urgency, m);
    forall i, j | 0 <= i < j < |r| ensures r[i].urgency >= r[j].urgency {
      assert Urgency(r[i]) >= Urgency(r[j]);
    }
    forall c | c in m ensures IsNewest(c, cards + batch) {
      PutAllNewest(cards, batch, c.id);
      AtIsMember(m, c);
    }
    forall c | c in cards + batch ensures c.id in Ids(CardId, m) {
      PutAllNewest(cards, batch, c.id);
      AtHas(m, c.id);
    }
  }

  lemma {:induction false} PutAllOlder(cards: seq<Card>, batch: seq<Card>)
    requires forall i :: 0 <= i < |batch| ==>
      At(cards, batch[i].id).Some? && !TextLess(At(cards, batch[i].id).value.updatedAt, batch[i].updatedAt)
    ensures PutAll(cards, batch) == cards
  {
    if batch != [] {
      PutAllOlder(cards, batch[..|batch| - 1]);
    }
  }

  /** Loading the same batch again changes nothing, order included. */
  lemma LoadIsIdempotent(cards: seq<Card>, batch: seq<Card>)
    requires Distinct(Ids(CardId, cards))
    ensures var r := SortDesc(Urgency, PutAll(cards, batch)); SortDesc(Urgency, PutAll(r, batch)) == r
  {
    var r := SortDesc(Urgency, PutAll(cards, batch));
    LoadedIsNewestUnion(cards, batch);
    forall i | 0 <= i < |batch|
      ensures At(r, batch[i].id).Some? && !TextLess(At(r, batch[i].id).value.updatedAt, batch[i].updatedAt) {
      assert (cards + batch)[|cards| + i] == batch[i];
      AtHas(r, batch[i].id);
      assert IsNewest(At(r, batch[i].id).value, cards + batch);
    }
    PutAllOlder(r, batch);
    assert forall i, j :: 0 <= i < j < |r| ==> Urgency(r[i]) >= Urgency(r[j]);
    SortDescOfSorted(Urgency, r);
  }

  // ---------------------------------------------------------------------------
  // skipCard
  // ---------------------------------------------------------------------------

  function Halved(c: Card): Card { c.(urgency := c.urgency * 0.5) }

  function Skip(cards: seq<Card>, at: nat): seq<Card> {
    if at >= |cards| then cards else cards[..at] + cards[at + 1..] + [Halved(cards[at])]
  }

  function SkipTimes(cards: seq<Card>, at: nat, n: nat): seq<Card> {
    if n == 0 then cards else Skip(SkipTimes(cards, at, n - 1), at)
  }

  function AllHalved(cards: seq<Card>): (r: seq<Card>)
    ensures |r| == |cards|
    ensures forall i :: 0 <= i < |cards| ==> r[i] == cards[i].(urgency := cards[i].urgency / 2.0)
  {
    if cards == [] then [] else AllHalved(cards[..|cards| - 1]) + [Halved(cards[|cards| - 1])]
  }

  lemma SkipOne(head: seq<Card>, next: Card, rest: seq<Card>)
    ensures Skip(head + [next] + rest, |head|) == head + rest + [Halved(next)]
  {
    var cards := head + [next] + rest;
    assert cards[|head|] == next;
    assert cards[..|head|] == head;
    assert cards[|head| + 1..] == rest;
  }

  lemma Regroup(head: seq<Card>, next: Card, tail: seq<Card>, passed: seq<Card>)
    ensures head + ([next] + tail) + passed == head + [next] + (tail + passed)
    ensures head + (tail + passed) + [Halved(next)] == head + tail + (passed + [Halved(next)])
  {
  }

  /** Skipping rotates the cards from the current one on and halves each urgency as it goes by. */
  lemma {:induction false} SkipsRotate(head: seq<Card>, tail: seq<Card>, n: nat)
    requires n <= |tail|
    ensures SkipTimes(head + tail, |head|, n) == head + tail[n..] + AllHalved(tail[..n])
  {
    if n == 0 {
      assert head + tail[0..] + [] == head + tail;
    } else {
      SkipsRotate(head, tail, n - 1);
      var next, passed := tail[n - 1], AllHalved(tail[..n - 1]);
      assert tail[n - 1..] == [next] + tail[n..];
      assert tail[..n][..n - 1] == tail[..n - 1];
      Regroup(head, next, tail[n..], passed);
      SkipOne(head, next, tail[n..] + passed);
    }
  }

  lemma {:induction false} HalvedIds(cards: seq<Card>)
    ensures Ids(CardId, AllHalved(cards)) == Ids(CardId, cards)
  {
    if cards != [] {
      HalvedIds(cards[..|cards| - 1]);
    }
  }

  /** As many skips as there are cards left bring back their order, every urgency halved. */
  lemma FullRotation(head: seq<Card>, tail: seq<Card>)
    ensures SkipTimes(head + tail, |head|, |tail|) == head + AllHalved(tail)
    ensures Ids(CardId, SkipTimes(head + tail, |head|, |tail|)) == Ids(CardId, head + tail)
  {
    SkipsRotate(head, tail, |tail|);
    assert tail[..|tail|] == tail;
    assert head + tail[|tail|..] == head;
    HalvedIds(tail);
    IdsAppend(CardId, head, tail);
    IdsAppend(CardId, head, AllHalved(tail));
  }

  // ---------------------------------------------------------------------------
  // The store
  // ---------------------------------------------------------------------------

  /** The loop of `loadBatch`: replace the first card with the id when the new one is later, else push. */
  method MergeBatch(cards: seq<Card>, newCards: seq<Card>) returns (merged: seq<Card>)
    ensures merged == PutAll(cards, newCards)
  {
    merged := cards;
    for i := 0 to |newCards|
      invariant merged == PutAll(cards, newCards[..i])
    {
      PutAllStep(cards, newCards, i);
      var card := newCards[i];
      var idx := IndexOf(merged, card.id);
      if idx < |merged| {
        if TextLess(merged[idx].updatedAt, card.updatedAt) {
          merged := merged[idx := card];
        }
      } else {
        merged := merged + [card];
      }
    }
    assert newCards[..|newCards|] == newCards;
  }

  class CardStore {
    var cards: seq<Card>
    var currentIndex: nat
    var batchSize: nat
    var isLoading: bool

    ghost predicate Valid() reads this {
      Distinct(Ids(CardId, cards)) && currentIndex <= |cards|
    }

    constructor ()
      ensures Valid() && cards == [] && currentIndex == 0 && batchSize == 10 && !isLoading
    {
      cards, currentIndex, batchSize, isLoading := [], 0, 10, false;
    }

    method LoadBatch(newCards: seq<Card>)
      requires Valid()
      modifies this
      ensures Valid() && IsLoaded(old(cards), newCards, cards)
      ensures cards == SortDesc(Urgency, PutAll(old(cards), newCards))
      ensures currentIndex == old(currentIndex) && batchSize == |newCards| && !isLoading
    {
      LoadedIsNewestUnion(cards, newCards);
      PutAllLength(cards, newCards);
      var merged := MergeBatch(cards, newCards);
      cards, batchSize, isLoading := SortDesc(Urgency, merged), |newCards|, false;
    }

    method NextCard()
      requires Valid()
      modifies `currentIndex
      ensures Valid()
      ensures currentIndex == if old(currentIndex) < |cards| then old(currentIndex) + 1 else |cards|
    {
      currentIndex := Min(currentIndex + 1, |cards|);
    }

    method SkipCard()
      requires Valid()
      modifies `cards
      ensures Valid() && cards == Skip(old(cards), currentIndex)
      ensures currentIndex == |old(cards)| ==> cards == old(cards)
      ensures currentIndex < |old(cards)| ==>
        var skipped := old(cards)[currentIndex];
        cards == old(cards)[..currentIndex] + old(cards)[currentIndex + 1..] +
                 [skipped.(urgency := skipped.urgency / 2.0)]
    {
      if currentIndex >= |cards| {
        return;
      }
      SkipKeepsIds(cards, currentIndex);
      var skipped := cards[currentIndex];
      var reordered := cards[..currentIndex] + cards[currentIndex + 1..];
      reordered := reordered + [skipped.(urgency := skipped.urgency * 0.5)];
      cards := reordered;
    }

    /** Removing the current card makes the one before it current; removing another keeps the current card. */
    method RemoveCard(cardId: string)
      requires Valid()
      modifies `cards, `currentIndex
      ensures Valid() && Removes(old(cards), old(currentIndex), cardId, cards, currentIndex)
    {
      var idx := IndexOf(cards, cardId);
      if idx == |cards| {
        return;
      }
      var updated := cards[..idx] + cards[idx + 1..];
      RemoveAt(cards, currentIndex, cardId, idx, updated,
               if idx <= currentIndex && currentIndex > 0 then currentIndex - 1 else currentIndex);
      var newIndex := currentIndex;
      if idx <= currentIndex {
        newIndex := if currentIndex > 0 then currentIndex - 1 else 0;
      }
      cards, currentIndex := updated, Min(newIndex, |updated|);
    }
  }

  /** The queue and index after a removal: only the card with the id goes; the current card stays current
      unless it is the one, and then the one before it is. */
  ghost predicate Removes(before: seq<Card>, at: nat, id: string, after: seq<Card>, to: nat) {
    var i := IndexOf(before, id);
    if i == |before| then after == before && to == at
    else RemovesAt(before, at, i, after, to) && OnlyGone(before, after, id)
  }

  ghost predicate OnlyGone(before: seq<Card>, after: seq<Card>, id: string) {
    forall c :: c in after <==> c in before && c.id != id
  }

  ghost predicate RemovesAt(before: seq<Card>, at: nat, i: nat, after: seq<Card>, to: nat)
    requires i < |before|
  {
    && after == before[..i] + before[i + 1..]
    && to == (if i <= at && at > 0 then at - 1 else at)
    && (i != at && at < |before| ==> to < |after| && after[to] == before[at])
    && (i == at && i > 0 ==> to < |after| && after[to] == before[i - 1])
  }

  lemma CurrentAfter(before: seq<Card>, at: nat, i: nat)
    requires i < |before| && at <= |before|
    ensures var after, to := before[..i] + before[i + 1..], if i <= at && at > 0 then at - 1 else at;
      to <= |after| && RemovesAt(before, at, i, after, to)
  {
  }

  lemma RemovedAt(before: seq<Card>, i: nat)
    requires Distinct(Ids(CardId, before)) && i < |before|
    ensures Distinct(Ids(CardId, before[..i] + before[i + 1..]))
    ensures OnlyGone(before, before[..i] + before[i + 1..], before[i].id)
  {
    SplitAt(before, i);
    Removed(before, before[..i], before[i], before[i + 1..]);
  }

  lemma RemovesWhole(before: seq<Card>, at: nat, id: string, i: nat, after: seq<Card>, to: nat)
    requires i == IndexOf(before, id) && i < |before|
    requires RemovesAt(before, at, i, after, to) && OnlyGone(before, after, id)
    ensures Removes(before, at, id, after, to)
  {
  }

  lemma RemoveAt(before: seq<Card>, at: nat, id: string, i: nat, after: seq<Card>, to: nat)
    requires Distinct(Ids(CardId, before)) && at <= |before| && i == IndexOf(before, id) && i < |before|
    requires after == before[..i] + before[i + 1..] && to == if i <= at && at > 0 then at - 1 else at
    ensures to <= |after| && Distinct(Ids(CardId, after)) && Removes(before, at, id, after, to)
  {
    IndexOfFinds(before, id);
    RemovedAt(before, i);
    CurrentAfter(before, at, i);
    RemovesWhole(before, at, id, i, after, to);
  }

  lemma PutAllStep(cards: seq<Card>, batch: seq<Card>, i: int)
    requires 0 <= i < |batch|
    ensures PutAll(cards, batch[..i + 1]) == Put(PutAll(cards, batch[..i]), batch[i])
  {
    assert batch[..i + 1][..i] == batch[..i];
  }

  lemma {:induction false} PutAllLength(cards: seq<Card>, batch: seq<Card>)
    ensures |PutAll(cards, batch)| >= |cards|
  {
    if batch != [] {
      PutAllLength(cards, batch[..|batch| - 1]);
    }
  }

  lemma DistinctWithout(a: seq<string>, x: string, b: seq<string>)
    requires Distinct(a + [x] + b)
    ensures Distinct(a + b) && x !in a + b
  {
    var all := a + [x] + b;
    assert all[|a|] == x;
    UnseenOne(all, |a|);
    UnseenDistinct(all, [x]);
    UnseenMember(all, [x], x);
    assert all[..|a|] == a && all[|a| + 1..] == b;
  }

  lemma RemovedIds(head: seq<Card>, x: Card, tail: seq<Card>)
    requires Distinct(Ids(CardId, head + [x] + tail))
    ensures Distinct(Ids(CardId, head + tail)) && x.id !in Ids(CardId, head + tail)
  {
    IdsAppend(CardId, head + [x], tail);
    IdsAppend(CardId, head, [x]);
    IdsAppend(CardId, head, tail);
    OneId(x);
    DistinctWithout(Ids(CardId, head), x.id, Ids(CardId, tail));
  }

  lemma MemberHasId(cards: seq<Card>, c: Card)
    requires c in cards
    ensures c.id in Ids(CardId, cards)
  {
    var i :| 0 <= i < |cards| && cards[i] == c;
    IdsAt(CardId, cards, i);
  }

  lemma RemovedMembers(head: seq<Card>, x: Card, tail: seq<Card>, c: Card)
    requires Distinct(Ids(CardId, head + [x] + tail))
    ensures c in head + tail <==> c in head + [x] + tail && c.id != x.id
  {
    RemovedIds(head, x, tail);
    if c in head + tail {
      MemberHasId(head + tail, c);
    }
  }

  lemma Removed(cards: seq<Card>, head: seq<Card>, x: Card, tail: seq<Card>)
    requires cards == head + [x] + tail && Distinct(Ids(CardId, cards))
    ensures Distinct(Ids(CardId, head + tail)) && x.id !in Ids(CardId, head + tail)
    ensures OnlyGone(cards, head + tail, x.id)
  {
    RemovedIds(head, x, tail);
    forall c ensures c in head + tail <==> c in cards && c.id != x.id {
      RemovedMembers(head, x, tail, c);
    }
  }

  lemma SplitAt(cards: seq<Card>, i: int)
    requires 0 <= i < |cards|
    ensures cards == cards[..i] + [cards[i]] + cards[i + 1..]
  {
  }

  lemma SkipKeepsIds(cards: seq<Card>, i: int)
    requires Distinct(Ids(CardId, cards)) && 0 <= i < |cards|
    ensures Distinct(Ids(CardId, Skip(cards, i)))
  {
    var rest, last := cards[..i] + cards[i + 1..], Halved(cards[i]);
    SplitAt(cards, i);
    Removed(cards, cards[..i], cards[i], cards[i + 1..]);
    IdsAppend(CardId, rest, [last]);
    OneId(last);
    DistinctAppend(Ids(CardId, rest), cards[i].id);
  }
}
