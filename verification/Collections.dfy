/** Sequence vocabulary shared by the client and server models: optional values,
    distinctness, JavaScript's insertion-ordered `Map`, and a stable descending sort. */
module Collections {

  datatype Option<+T> = None | Some(value: T)

  function Max(a: int, b: int): int {
    if a > b then a else b
  }

  function Min(a: int, b: int): int {
    if a < b then a else b
  }

  ghost predicate Distinct<T>(s: seq<T>) {
    forall i, j :: 0 <= i < j < |s| ==> s[i] != s[j]
  }

  lemma DistinctAppend<T>(s: seq<T>, x: T)
    requires Distinct(s) && x !in s
    ensures Distinct(s + [x])
  {
  }

  lemma DistinctInit<T>(s: seq<T>)
    requires s != [] && Distinct(s)
    ensures Distinct(s[..|s| - 1]) && s[|s| - 1] !in s[..|s| - 1]
  {
  }

  /** The elements of `s` that do not occur in `gone`, in order. */
  function Unseen<T(==)>(s: seq<T>, gone: seq<T>): seq<T> {
    if s == [] then []
    else Unseen(s[..|s| - 1], gone) + if s[|s| - 1] in gone then [] else [s[|s| - 1]]
  }

  /** Membership in a list, seen from its last element. */
  lemma MemberSplit<T>(s: seq<T>, x: T)
    requires s != []
    ensures x in s <==> x in s[..|s| - 1] || x == s[|s| - 1]
  {
    assert s == s[..|s| - 1] + [s[|s| - 1]];
  }

  lemma {:induction false} UnseenMember<T>(s: seq<T>, gone: seq<T>, y: T)
    ensures y in Unseen(s, gone) <==> y in s && y !in gone
  {
    if s != [] {
      UnseenMember(s[..|s| - 1], gone, y);
      MemberSplit(s, y);
    }
  }

  lemma {:induction false} UnseenDistinct<T>(s: seq<T>, gone: seq<T>)
    requires Distinct(s)
    ensures Distinct(Unseen(s, gone))
  {
    if s != [] {
      DistinctInit(s);
      UnseenDistinct(s[..|s| - 1], gone);
      UnseenMember(s[..|s| - 1], gone, s[|s| - 1]);
    }
  }

  lemma {:induction false} UnseenNothing<T>(s: seq<T>)
    ensures Unseen(s, []) == s
  {
    if s != [] {
      UnseenNothing(s[..|s| - 1]);
    }
  }

  lemma UnseenOneMore<T>(s: seq<T>, x: T, gone: seq<T>)
    ensures Unseen(s + [x], gone) == Unseen(s, gone) + if x in gone then [] else [x]
  {
    assert (s + [x])[..|s|] == s;
  }

  lemma ConcatAssociates<T>(a: seq<T>, b: seq<T>, c: seq<T>)
    ensures a + b + c == a + (b + c)
  {
  }

  lemma SplitLast<T>(s: seq<T>)
    requires s != []
    ensures s[..|s| - 1] + [s[|s| - 1]] == s
  {
  }

  lemma TakeOneMore<T>(s: seq<T>, i: int)
    requires 0 <= i < |s|
    ensures s[..i + 1] == s[..i] + [s[i]]
  {
  }

  lemma UnseenAppendStep<T>(a: seq<T>, init: seq<T>, last: T, gone: seq<T>)
    requires Unseen(a + init, gone) == Unseen(a, gone) + Unseen(init, gone)
    ensures Unseen(a + (init + [last]), gone) == Unseen(a, gone) + Unseen(init + [last], gone)
  {
    var tail := if last in gone then [] else [last];
    ConcatAssociates(a, init, [last]);
    UnseenOneMore(a + init, last, gone);
    UnseenOneMore(init, last, gone);
    ConcatAssociates(Unseen(a, gone), Unseen(init, gone), tail);
  }

  lemma {:induction false} UnseenAppend<T>(a: seq<T>, b: seq<T>, gone: seq<T>)
    ensures Unseen(a + b, gone) == Unseen(a, gone) + Unseen(b, gone)
  {
    if b == [] {
      assert a + b == a;
    } else {
      UnseenAppend(a, b[..|b| - 1], gone);
      UnseenAppendStep(a, b[..|b| - 1], b[|b| - 1], gone);
      SplitLast(b);
    }
  }

  /** Dropping more elements can be done one at a time. */
  lemma {:induction false} UnseenStep<T>(s: seq<T>, gone: seq<T>, x: T)
    ensures Unseen(s, gone + [x]) == Unseen(Unseen(s, gone), [x])
  {
    if s != [] {
      var init, last := s[..|s| - 1], s[|s| - 1];
      UnseenStep(init, gone, x);
      UnseenAppend(Unseen(init, gone), if last in gone then [] else [last], [x]);
      assert [last][..0] == [];
      assert Unseen([last], [x]) == if last == x then [] else [last];
    }
  }

  lemma {:induction false} UnseenAll<T>(s: seq<T>, gone: seq<T>)
    requires forall y :: y in s ==> y in gone
    ensures Unseen(s, gone) == []
  {
    if s != [] {
      UnseenAll(s[..|s| - 1], gone);
    }
  }

  lemma {:induction false} UnseenNone<T>(s: seq<T>, gone: seq<T>)
    requires forall y :: y in s ==> y !in gone
    ensures Unseen(s, gone) == s
  {
    if s != [] {
      UnseenNone(s[..|s| - 1], gone);
    }
  }

  /** Taking an element out of a list without repetition. */
  lemma {:induction false} UnseenOne<T>(s: seq<T>, i: int)
    requires Distinct(s) && 0 <= i < |s|
    ensures Unseen(s, [s[i]]) == s[..i] + s[i + 1..]
  {
    var n := |s| - 1;
    DistinctInit(s);
    if i < n {
      UnseenOne(s[..n], i);
      assert s[..n][i + 1..] + [s[n]] == s[i + 1..];
      assert s[..n][..i] == s[..i];
    } else {
      UnseenNone(s[..n], [s[i]]);
      assert s[i + 1..] == [];
    }
  }

  /** The distinct elements of `s` in the order of their first occurrence. */
  function FirstOccurrences<T(==)>(s: seq<T>): seq<T> {
    if s == [] then []
    else FirstOccurrences(s[..|s| - 1]) + if s[|s| - 1] in s[..|s| - 1] then [] else [s[|s| - 1]]
  }

  lemma {:induction false} FirstOccurrencesMember<T>(s: seq<T>, y: T)
    ensures y in FirstOccurrences(s) <==> y in s
  {
    if s != [] {
      FirstOccurrencesMember(s[..|s| - 1], y);
      MemberSplit(s, y);
    }
  }

  lemma {:induction false} FirstOccurrencesDistinct<T>(s: seq<T>)
    ensures Distinct(FirstOccurrences(s))
  {
    if s != [] {
      FirstOccurrencesDistinct(s[..|s| - 1]);
      FirstOccurrencesMember(s[..|s| - 1], s[|s| - 1]);
    }
  }

  lemma {:induction false} FirstOccurrencesOfDistinct<T>(s: seq<T>)
    requires Distinct(s)
    ensures FirstOccurrences(s) == s
  {
    if s != [] {
      DistinctInit(s);
      FirstOccurrencesOfDistinct(s[..|s| - 1]);
    }
  }

  lemma {:induction false} DistinctMultiplicity<T>(s: seq<T>, x: T)
    requires Distinct(s)
    ensures multiset(s)[x] == if x in s then 1 else 0
  {
    if s != [] {
      var init, last := s[..|s| - 1], s[|s| - 1];
      assert s == init + [last];
      DistinctMultiplicity(init, x);
    }
  }

  lemma SameElementsSameMultiset<T(!new)>(a: seq<T>, b: seq<T>)
    requires Distinct(a) && Distinct(b)
    requires forall x :: x in a <==> x in b
    ensures multiset(a) == multiset(b)
  {
    forall x ensures multiset(a)[x] == multiset(b)[x] {
      DistinctMultiplicity(a, x);
      DistinctMultiplicity(b, x);
    }
  }

  lemma DistinctConcat<T>(a: seq<T>, b: seq<T>)
    requires Distinct(b) && forall x :: x in b ==> x !in a
    ensures Distinct(a + b) <==> Distinct(a)
  {
    if Distinct(a + b) {
      forall i, j | 0 <= i < j < |a| ensures a[i] != a[j] {
        assert (a + b)[i] == a[i] && (a + b)[j] == a[j];
      }
    }
    if Distinct(a) {
      forall i, j | 0 <= i < j < |a + b| ensures (a + b)[i] != (a + b)[j] {
        assert i < |a| <= j ==> (a + b)[j] in b;
      }
    }
  }

  /** JavaScript's `Map`: iteration follows first insertion, and overwriting a key keeps its place. */
  datatype OrderedMap<V> = OrderedMap(keys: seq<string>, at: map<string, V>) {

    ghost predicate Valid() {
      && Distinct(keys)
      && forall k :: k in keys <==> k in at
    }

    function Set(k: string, v: V): OrderedMap<V> {
      OrderedMap(if k in at then keys else keys + [k], at[k := v])
    }

    function Delete(k: string): OrderedMap<V> {
      OrderedMap(Unseen(keys, [k]), at - {k})
    }
  }

  function Ids<T>(id: T -> string, items: seq<T>): (r: seq<string>)
    ensures |r| == |items|
  {
    if items == [] then [] else Ids(id, items[..|items| - 1]) + [id(items[|items| - 1])]
  }

  lemma {:induction false} IdsAt<T>(id: T -> string, items: seq<T>, i: int)
    requires 0 <= i < |items|
    ensures Ids(id, items)[i] == id(items[i])
  {
    if i < |items| - 1 {
      IdsAt(id, items[..|items| - 1], i);
    }
  }

  lemma IdsOneMore<T>(id: T -> string, items: seq<T>, x: T)
    ensures Ids(id, items + [x]) == Ids(id, items) + [id(x)]
  {
    assert (items + [x])[..|items|] == items;
  }

  lemma IdsAppendStep<T>(id: T -> string, a: seq<T>, init: seq<T>, last: T)
    requires Ids(id, a + init) == Ids(id, a) + Ids(id, init)
    ensures Ids(id, a + (init + [last])) == Ids(id, a) + Ids(id, init + [last])
  {
    ConcatAssociates(a, init, [last]);
    IdsOneMore(id, a + init, last);
    IdsOneMore(id, init, last);
    ConcatAssociates(Ids(id, a), Ids(id, init), [id(last)]);
  }

  lemma {:induction false} IdsAppend<T>(id: T -> string, a: seq<T>, b: seq<T>)
    ensures Ids(id, a + b) == Ids(id, a) + Ids(id, b)
  {
    if b == [] {
      assert a + b == a;
    } else {
      IdsAppend(id, a, b[..|b| - 1]);
      IdsAppendStep(id, a, b[..|b| - 1], b[|b| - 1]);
      SplitLast(b);
    }
  }

  /** `for (x of items) m.set(x.id, x)` from an empty map. */
  function Index<T>(id: T -> string, items: seq<T>): OrderedMap<T> {
    if items == [] then OrderedMap([], map[])
    else Index(id, items[..|items| - 1]).Set(id(items[|items| - 1]), items[|items| - 1])
  }

  lemma IndexOneMore<T>(id: T -> string, items: seq<T>, x: T)
    ensures Index(id, items + [x]) == Index(id, items).Set(id(x), x)
  {
    assert (items + [x])[..|items|] == items;
  }

  lemma {:induction false} IndexHas<T>(id: T -> string, items: seq<T>, k: string)
    ensures k in Index(id, items).at <==> k in Ids(id, items)
  {
    if items != [] {
      IndexHas(id, items[..|items| - 1], k);
    }
  }

  lemma {:induction false} IndexOrder<T>(id: T -> string, items: seq<T>)
    ensures Index(id, items).keys == FirstOccurrences(Ids(id, items))
  {
    if items != [] {
      var init, ids := items[..|items| - 1], Ids(id, items);
      assert ids[..|ids| - 1] == Ids(id, init);
      IndexOrder(id, init);
      IndexHas(id, init, ids[|ids| - 1]);
    }
  }

  lemma IndexKeys<T>(id: T -> string, items: seq<T>)
    ensures Index(id, items).Valid()
    ensures Index(id, items).keys == FirstOccurrences(Ids(id, items))
  {
    IndexOrder(id, items);
    FirstOccurrencesDistinct(Ids(id, items));
    forall k ensures k in Index(id, items).keys <==> k in Index(id, items).at {
      IndexHas(id, items, k);
      FirstOccurrencesMember(Ids(id, items), k);
    }
  }

  /** The last item with an id is the one the index keeps. */
  lemma {:induction false} IndexKeepsLast<T>(id: T -> string, items: seq<T>, k: string) returns (i: int)
    requires k in Index(id, items).at
    ensures 0 <= i < |items| && id(items[i]) == k && Index(id, items).at[k] == items[i]
    ensures forall j :: i < j < |items| ==> id(items[j]) != k
  {
    if id(items[|items| - 1]) == k {
      i := |items| - 1;
    } else {
      i := IndexKeepsLast(id, items[..|items| - 1], k);
    }
  }

  lemma {:induction false} IndexOfDistinct<T>(id: T -> string, items: seq<T>, i: int)
    requires Distinct(Ids(id, items)) && 0 <= i < |items|
    ensures id(items[i]) in Index(id, items).at && Index(id, items).at[id(items[i])] == items[i]
  {
    var n := |items| - 1;
    var ids := Ids(id, items);
    IdsAt(id, items, i);
    IdsAt(id, items, n);
    if i < n {
      assert ids[i] != ids[n];
      assert ids[..n] == Ids(id, items[..n]);
      DistinctInit(ids);
      IndexOfDistinct(id, items[..n], i);
    }
  }

  lemma {:induction false} IdsPrefix<T>(id: T -> string, items: seq<T>, i: int)
    requires 0 <= i <= |items|
    ensures Ids(id, items[..i]) == Ids(id, items)[..i]
  {
    if i < |items| {
      IdsPrefix(id, items[..|items| - 1], i);
      assert items[..|items| - 1][..i] == items[..i];
    } else {
      assert items[..i] == items;
    }
  }

  lemma IndexIgnoresOrder<T>(id: T -> string, a: seq<T>, b: seq<T>)
    requires Distinct(Ids(id, a)) && Distinct(Ids(id, b)) && multiset(a) == multiset(b)
    ensures Index(id, a).at == Index(id, b).at
  {
    forall k | k in Index(id, a).at ensures k in Index(id, b).at && Index(id, b).at[k] == Index(id, a).at[k] {
      IndexFollows(id, a, b, k);
    }
    forall k | k in Index(id, b).at ensures k in Index(id, a).at {
      IndexFollows(id, b, a, k);
    }
  }

  lemma IndexFollows<T>(id: T -> string, a: seq<T>, b: seq<T>, k: string)
    requires Distinct(Ids(id, b)) && multiset(a) == multiset(b)
    requires k in Index(id, a).at
    ensures k in Index(id, b).at && Index(id, b).at[k] == Index(id, a).at[k]
  {
    var i := IndexKeepsLast(id, a, k);
    assert a[i] in multiset(b);
    var j :| 0 <= j < |b| && b[j] == a[i];
    IndexOfDistinct(id, b, j);
  }

  lemma DistinctIdsDistinctItems<T>(id: T -> string, items: seq<T>)
    requires Distinct(Ids(id, items))
    ensures Distinct(items)
  {
    forall i, j | 0 <= i < j < |items| ensures items[i] != items[j] {
      IdsAt(id, items, i);
      IdsAt(id, items, j);
    }
  }

  /** The ids of `ids` that are keys of `at`, each at its first occurrence. */
  function Matched<V>(ids: seq<string>, at: map<string, V>): seq<string> {
    if ids == [] then []
    else
      var init, last := ids[..|ids| - 1], ids[|ids| - 1];
      Matched(init, at) + if last in at && last !in init then [last] else []
  }

  lemma {:induction false} MatchedMember<V>(ids: seq<string>, at: map<string, V>, k: string)
    ensures k in Matched(ids, at) <==> k in ids && k in at
  {
    if ids != [] {
      MatchedMember(ids[..|ids| - 1], at, k);
      MemberSplit(ids, k);
    }
  }

  lemma {:induction false} MatchedDistinct<V>(ids: seq<string>, at: map<string, V>)
    ensures Distinct(Matched(ids, at))
  {
    if ids != [] {
      MatchedDistinct(ids[..|ids| - 1], at);
      MatchedMember(ids[..|ids| - 1], at, ids[|ids| - 1]);
    }
  }

  /** The map once the keys `ids` have been looked up and deleted, in order. */
  ghost function Remaining<V>(m: OrderedMap<V>, ids: seq<string>): OrderedMap<V> {
    if ids == [] then m
    else
      var rest, k := Remaining(m, ids[..|ids| - 1]), ids[|ids| - 1];
      if k in rest.at then rest.Delete(k) else rest
  }

  lemma {:induction false} RemainingAt<V>(m: OrderedMap<V>, ids: seq<string>, k: string)
    ensures k in Remaining(m, ids).at <==> k in m.at && k !in ids
    ensures k in Remaining(m, ids).at ==> Remaining(m, ids).at[k] == m.at[k]
  {
    if ids != [] {
      RemainingAt(m, ids[..|ids| - 1], k);
      MemberSplit(ids, k);
    }
  }

  lemma {:induction false} RemainingKeys<V>(m: OrderedMap<V>, ids: seq<string>)
    requires m.Valid()
    ensures Remaining(m, ids).keys == Unseen(m.keys, ids)
  {
    if ids == [] {
      UnseenNothing(m.keys);
    } else {
      var init, k := ids[..|ids| - 1], ids[|ids| - 1];
      assert ids == init + [k];
      RemainingKeys(m, init);
      UnseenStep(m.keys, init, k);
      RemainingAt(m, init, k);
      if k !in Remaining(m, init).at {
        UnseenMember(m.keys, init, k);
        UnseenNone(Unseen(m.keys, init), [k]);
      }
    }
  }

  // ---------------------------------------------------------------------------
  // Array.prototype.sort with comparator (a, b) => key(b) - key(a): stable, descending.
  // ---------------------------------------------------------------------------

  ghost predicate SortedDesc<T>(key: T -> real, s: seq<T>) {
    forall i, j :: 0 <= i < j < |s| ==> key(s[i]) >= key(s[j])
  }

  /** Places `x` behind every element whose key is not smaller. */
  function InsertDesc<T(!new)>(key: T -> real, s: seq<T>, x: T): (r: seq<T>)
    ensures |r| == |s| + 1
    ensures r[0] == if s == [] || key(s[0]) < key(x) then x else s[0]
    ensures forall y :: y in r <==> y in s || y == x
  {
    if s == [] then [x]
    else if key(s[0]) < key(x) then [x] + s
    else [s[0]] + InsertDesc(key, s[1..], x)
  }

  lemma {:induction false} InsertDescSorted<T(!new)>(key: T -> real, s: seq<T>, x: T)
    requires SortedDesc(key, s)
    ensures SortedDesc(key, InsertDesc(key, s, x))
  {
    if s != [] && key(s[0]) >= key(x) {
      var r := InsertDesc(key, s[1..], x);
      InsertDescSorted(key, s[1..], x);
      forall y | y in r ensures key(s[0]) >= key(y) {
        if y in s[1..] {
          var j :| 0 < j < |s| && s[j] == y;
        }
      }
    }
  }

  lemma {:induction false} InsertDescPermutes<T(!new)>(key: T -> real, s: seq<T>, x: T)
    ensures multiset(InsertDesc(key, s, x)) == multiset(s) + multiset{x}
  {
    if s != [] {
      assert s == [s[0]] + s[1..];
      InsertDescPermutes(key, s[1..], x);
    }
  }

  /** The elements of `s` whose key is `k`, in order. */
  function WithKey<T>(key: T -> real, k: real, s: seq<T>): seq<T> {
    if s == [] then []
    else (if key(s[0]) == k then [s[0]] else []) + WithKey(key, k, s[1..])
  }

  lemma WithKeyCons<T>(key: T -> real, k: real, x: T, s: seq<T>)
    ensures WithKey(key, k, [x] + s) == (if key(x) == k then [x] else []) + WithKey(key, k, s)
  {
    assert ([x] + s)[1..] == s;
  }

  lemma {:induction false} WithKeyAppend<T>(key: T -> real, k: real, a: seq<T>, b: seq<T>)
    ensures WithKey(key, k, a + b) == WithKey(key, k, a) + WithKey(key, k, b)
  {
    if a == [] {
      assert a + b == b;
    } else {
      var rest := a[1..];
      assert a == [a[0]] + rest;
      ConcatAssociates([a[0]], rest, b);
      WithKeyCons(key, k, a[0], rest);
      WithKeyCons(key, k, a[0], rest + b);
      WithKeyAppend(key, k, rest, b);
      ConcatAssociates(if key(a[0]) == k then [a[0]] else [], WithKey(key, k, rest), WithKey(key, k, b));
    }
  }

  lemma {:induction false} WithKeyNone<T>(key: T -> real, k: real, s: seq<T>)
    requires forall i :: 0 <= i < |s| ==> key(s[i]) != k
    ensures WithKey(key, k, s) == []
  {
    if s != [] {
      WithKeyNone(key, k, s[1..]);
    }
  }

  lemma WithKeyOfOne<T>(key: T -> real, k: real, x: T)
    ensures WithKey(key, k, [x]) == if key(x) == k then [x] else []
  {
    assert [x][1..] == [];
  }

  lemma SmallerThanNone<T>(key: T -> real, s: seq<T>, k: real)
    requires SortedDesc(key, s) && s != [] && key(s[0]) < k
    ensures WithKey(key, k, s) == []
  {
    WithKeyNone(key, k, s);
  }

  lemma {:induction false} InsertDescIsStable<T(!new)>(key: T -> real, s: seq<T>, x: T, k: real)
    requires SortedDesc(key, s)
    ensures WithKey(key, k, InsertDesc(key, s, x)) == WithKey(key, k, s) + WithKey(key, k, [x])
  {
    WithKeyOfOne(key, k, x);
    if s != [] {
      if key(s[0]) < key(x) {
        WithKeyCons(key, k, x, s);
        if key(x) == k {
          SmallerThanNone(key, s, k);
        }
      } else {
        InsertDescIsStable(key, s[1..], x, k);
        WithKeyCons(key, k, s[0], InsertDesc(key, s[1..], x));
      }
    }
  }

  function SortDesc<T(!new)>(key: T -> real, s: seq<T>): (r: seq<T>)
    ensures |r| == |s|
    ensures forall y :: y in r <==> y in s
  {
    if s == [] then []
    else
      assert s == s[..|s| - 1] + [s[|s| - 1]];
      InsertDesc(key, SortDesc(key, s[..|s| - 1]), s[|s| - 1])
  }

  lemma {:induction false} SortDescSorts<T(!new)>(key: T -> real, s: seq<T>)
    ensures SortedDesc(key, SortDesc(key, s))
    ensures multiset(SortDesc(key, s)) == multiset(s)
  {
    if s != [] {
      var init, last := s[..|s| - 1], s[|s| - 1];
      assert s == init + [last];
      SortDescSorts(key, init);
      InsertDescSorted(key, SortDesc(key, init), last);
      InsertDescPermutes(key, SortDesc(key, init), last);
    }
  }

  /** The sort never reorders elements with equal keys. */
  lemma {:induction false} SortDescIsStable<T(!new)>(key: T -> real, s: seq<T>, k: real)
    ensures WithKey(key, k, SortDesc(key, s)) == WithKey(key, k, s)
  {
    if s != [] {
      var init, last := s[..|s| - 1], s[|s| - 1];
      assert s == init + [last];
      SortDescIsStable(key, init, k);
      SortDescSorts(key, init);
      InsertDescIsStable(key, SortDesc(key, init), last, k);
      WithKeyAppend(key, k, init, [last]);
    }
  }

  lemma {:induction false} InsertDescLast<T(!new)>(key: T -> real, s: seq<T>, x: T)
    requires forall i :: 0 <= i < |s| ==> key(s[i]) >= key(x)
    ensures InsertDesc(key, s, x) == s + [x]
  {
    if s != [] {
      InsertDescLast(key, s[1..], x);
    }
  }

  lemma {:induction false} SortDescOfSorted<T(!new)>(key: T -> real, s: seq<T>)
    requires SortedDesc(key, s)
    ensures SortDesc(key, s) == s
  {
    if s != [] {
      var init, last := s[..|s| - 1], s[|s| - 1];
      assert s == init + [last];
      SortDescOfSorted(key, init);
      InsertDescLast(key, init, last);
    }
  }
}
