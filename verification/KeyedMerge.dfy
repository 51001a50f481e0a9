/** Merging a local table into a server list by id: the skeleton `mergeCards` and `mergeDrafts` share.
    A server row meets the local row of its id at the id's first occurrence and is taken as it came
    otherwise; local rows the server lacks follow in their own order. */
module KeyedMerge {
  import opened Collections

  /** How the two sides are keyed, and what a met pair becomes. */
  datatype Sides<!L, !S> = Sides(localId: L -> string, serverId: S -> string, plain: L -> S, join: (L, S) -> S)

  ghost predicate KeepsIds<L(!new), S(!new)>(x: Sides<L, S>) {
    && (forall l :: x.serverId(x.plain(l)) == x.localId(l))
    && (forall l, s :: x.serverId(x.join(l, s)) == x.serverId(s))
  }

  function ServerSide<L, S>(x: Sides<L, S>, at: map<string, L>, server: seq<S>): (r: seq<S>)
    ensures |r| == |server|
  {
    if server == [] then []
    else
      var init, s := server[..|server| - 1], server[|server| - 1];
      var k := x.serverId(s);
      ServerSide(x, at, init) +
      [if k in at && k !in Ids(x.serverId, init) then x.join(at[k], s) else s]
  }

  function Kept<L, S>(x: Sides<L, S>, at: map<string, L>, keys: seq<string>): seq<S> {
    if keys == [] then []
    else
      Kept(x, at, keys[..|keys| - 1]) +
      if keys[|keys| - 1] in at then [x.plain(at[keys[|keys| - 1]])] else []
  }

  function MergedList<L, S>(x: Sides<L, S>, locals: seq<L>, server: seq<S>): seq<S> {
    var m := Index(x.localId, locals);
    ServerSide(x, m.at, server) + Kept(x, m.at, Unseen(m.keys, Ids(x.serverId, server)))
  }

  // ---------------------------------------------------------------------------
  // The ids of the output
  // ---------------------------------------------------------------------------

  lemma {:induction false} ServerSideIds<L(!new), S(!new)>(x: Sides<L, S>, at: map<string, L>, server: seq<S>)
    requires KeepsIds(x)
    ensures Ids(x.serverId, ServerSide(x, at, server)) == Ids(x.serverId, server)
  {
    if server != [] {
      var n := |server| - 1;
      ServerSideIds(x, at, server[..n]);
      assert ServerSide(x, at, server)[..n] == ServerSide(x, at, server[..n]);
    }
  }

  lemma {:induction false} KeptIds<L(!new), S(!new)>(x: Sides<L, S>, locals: seq<L>, keys: seq<string>)
    requires KeepsIds(x)
    requires forall k :: k in keys ==> k in Index(x.localId, locals).at
    ensures Ids(x.serverId, Kept(x, Index(x.localId, locals).at, keys)) == keys
  {
    if keys != [] {
      var n, at := |keys| - 1, Index(x.localId, locals).at;
      KeptIds(x, locals, keys[..n]);
      var i := IndexKeepsLast(x.localId, locals, keys[n]);
      assert Kept(x, at, keys)[..|Kept(x, at, keys[..n])|] == Kept(x, at, keys[..n]);
    }
  }

  /** The output lists the server's ids in the server's order, then the local ids it lacks. */
  lemma MergedIds<L(!new), S(!new)>(x: Sides<L, S>, locals: seq<L>, server: seq<S>)
    requires KeepsIds(x)
    ensures Ids(x.serverId, MergedList(x, locals, server)) ==
            Ids(x.serverId, server) + Unseen(FirstOccurrences(Ids(x.localId, locals)), Ids(x.serverId, server))
  {
    var m, ids := Index(x.localId, locals), Ids(x.serverId, server);
    IndexKeys(x.localId, locals);
    forall k | k in Unseen(m.keys, ids) ensures k in m.at {
      UnseenMember(m.keys, ids, k);
    }
    ServerSideIds(x, m.at, server);
    KeptIds(x, locals, Unseen(m.keys, ids));
    IdsAppend(x.serverId, ServerSide(x, m.at, server), Kept(x, m.at, Unseen(m.keys, ids)));
  }

  /** Every id of either side is in the output, and no other. */
  lemma MergedIdsAreTheUnion<L(!new), S(!new)>(x: Sides<L, S>, locals: seq<L>, server: seq<S>, k: string)
    requires KeepsIds(x)
    ensures k in Ids(x.serverId, MergedList(x, locals, server)) <==>
            k in Ids(x.serverId, server) || k in Ids(x.localId, locals)
  {
    MergedIds(x, locals, server);
    UnseenMember(FirstOccurrences(Ids(x.localId, locals)), Ids(x.serverId, server), k);
    FirstOccurrencesMember(Ids(x.localId, locals), k);
  }

  /** No id is repeated in the output if and only if the server repeats none; repeated local
      ids do no harm. */
  lemma MergedIdsDistinctIff<L(!new), S(!new)>(x: Sides<L, S>, locals: seq<L>, server: seq<S>)
    requires KeepsIds(x)
    ensures Distinct(Ids(x.serverId, MergedList(x, locals, server))) <==> Distinct(Ids(x.serverId, server))
  {
    var keys, ids := FirstOccurrences(Ids(x.localId, locals)), Ids(x.serverId, server);
    MergedIds(x, locals, server);
    forall k | k in Unseen(keys, ids) ensures k !in ids {
      UnseenMember(keys, ids, k);
    }
    FirstOccurrencesDistinct(Ids(x.localId, locals));
    UnseenDistinct(keys, ids);
    DistinctConcat(ids, Unseen(keys, ids));
  }

  // ---------------------------------------------------------------------------
  // Each row is the join of the two sides at its id
  // ---------------------------------------------------------------------------

  lemma {:induction false} ServerSideAt<L(!new), S(!new)>(x: Sides<L, S>, at: map<string, L>, server: seq<S>, i: int)
    requires 0 <= i < |server|
    ensures var k := x.serverId(server[i]);
      ServerSide(x, at, server)[i] ==
      if k in at && k !in Ids(x.serverId, server[..i]) then x.join(at[k], server[i]) else server[i]
  {
    var n := |server| - 1;
    if i < n {
      ServerSideAt(x, at, server[..n], i);
      assert server[..n][..i] == server[..i];
    }
  }

  lemma {:induction false} KeptAt<L(!new), S(!new)>(x: Sides<L, S>, at: map<string, L>, keys: seq<string>, i: int)
    requires 0 <= i < |keys| && forall k :: k in keys ==> k in at
    ensures |Kept(x, at, keys)| == |keys| && Kept(x, at, keys)[i] == x.plain(at[keys[i]])
  {
    var n := |keys| - 1;
    if i < n {
      KeptAt(x, at, keys[..n], i);
    } else if n > 0 {
      KeptAt(x, at, keys[..n], n - 1);
    }
  }

  /** The two tables joined at one id, without any list. */
  ghost function JoinAt<L, S>(x: Sides<L, S>, local: map<string, L>, server: map<string, S>, k: string): S
    requires k in local || k in server
  {
    if k !in server then x.plain(local[k])
    else if k !in local then server[k]
    else x.join(local[k], server[k])
  }

  lemma ConcatAt<S>(a: seq<S>, b: seq<S>, i: int)
    requires 0 <= i < |a + b|
    ensures (a + b)[i] == if i < |a| then a[i] else b[i - |a|]
  {
  }

  lemma NoEarlier(ids: seq<string>, i: int)
    requires Distinct(ids) && 0 <= i < |ids|
    ensures ids[i] !in ids[..i]
  {
  }

  lemma FirstOfItsId<S(!new)>(id: S -> string, server: seq<S>, i: int)
    requires Distinct(Ids(id, server)) && 0 <= i < |server|
    ensures id(server[i]) !in Ids(id, server[..i])
  {
    IdsPrefix(id, server, i);
    IdsAt(id, server, i);
    NoEarlier(Ids(id, server), i);
  }

  lemma JoinedId<L(!new), S(!new)>(x: Sides<L, S>, l: L, s: S)
    requires KeepsIds(x)
    ensures x.serverId(x.join(l, s)) == x.serverId(s)
  {
  }

  lemma ServerRowId<L(!new), S(!new)>(x: Sides<L, S>, at: map<string, L>, server: seq<S>, i: int)
    requires KeepsIds(x) && 0 <= i < |server|
    ensures x.serverId(ServerSide(x, at, server)[i]) == x.serverId(server[i])
  {
    ServerSideAt(x, at, server, i);
    if x.serverId(server[i]) in at {
      JoinedId(x, at[x.serverId(server[i])], server[i]);
    }
  }

  /** A row the server sent is the join at its id. */
  lemma ServerRowIsJoin<L(!new), S(!new)>(x: Sides<L, S>, locals: seq<L>, server: seq<S>, i: int)
    requires Distinct(Ids(x.serverId, server)) && 0 <= i < |server|
    ensures var l, s, k := Index(x.localId, locals).at, Index(x.serverId, server).at, x.serverId(server[i]);
      k in s && ServerSide(x, l, server)[i] == JoinAt(x, l, s, k)
  {
    ServerSideAt(x, Index(x.localId, locals).at, server, i);
    FirstOfItsId(x.serverId, server, i);
    IndexOfDistinct(x.serverId, server, i);
  }

  lemma RestIsLocalOnly<L(!new), S(!new)>(x: Sides<L, S>, locals: seq<L>, server: seq<S>)
    ensures var m, ids := Index(x.localId, locals), Ids(x.serverId, server);
      forall k :: k in Unseen(m.keys, ids) ==> k in m.at && k !in Index(x.serverId, server).at
  {
    var m, ids := Index(x.localId, locals), Ids(x.serverId, server);
    IndexKeys(x.localId, locals);
    forall k | k in Unseen(m.keys, ids) ensures k in m.at && k !in Index(x.serverId, server).at {
      UnseenMember(m.keys, ids, k);
      IndexHas(x.serverId, server, k);
    }
  }

  /** A local row the server lacks is the join at its id. */
  lemma KeptRowIsJoin<L(!new), S(!new)>(x: Sides<L, S>, locals: seq<L>, server: seq<S>, j: int)
    requires KeepsIds(x)
    requires var m := Index(x.localId, locals);
      0 <= j < |Kept(x, m.at, Unseen(m.keys, Ids(x.serverId, server)))|
    ensures var m, s := Index(x.localId, locals), Index(x.serverId, server).at;
      var c := Kept(x, m.at, Unseen(m.keys, Ids(x.serverId, server)))[j];
      x.serverId(c) in m.at && c == JoinAt(x, m.at, s, x.serverId(c))
  {
    var m := Index(x.localId, locals);
    var rest := Unseen(m.keys, Ids(x.serverId, server));
    RestIsLocalOnly(x, locals, server);
    KeptIds(x, locals, rest);
    KeptAt(x, m.at, rest, j);
    var last := IndexKeepsLast(x.localId, locals, rest[j]);
  }

  /** The i-th output row is the join of the two sides at its own id. */
  lemma MergedIsJoin<L(!new), S(!new)>(x: Sides<L, S>, locals: seq<L>, server: seq<S>, i: int)
    requires KeepsIds(x) && Distinct(Ids(x.serverId, server))
    requires 0 <= i < |MergedList(x, locals, server)|
    ensures var c := MergedList(x, locals, server)[i];
      var l, s, k := Index(x.localId, locals).at, Index(x.serverId, server).at, x.serverId(c);
      (k in l || k in s) && c == JoinAt(x, l, s, k)
  {
    var m := Index(x.localId, locals);
    var a := ServerSide(x, m.at, server);
    var b := Kept(x, m.at, Unseen(m.keys, Ids(x.serverId, server)));
    assert MergedList(x, locals, server) == a + b;
    ConcatAt(a, b, i);
    if i < |a| {
      ServerRowId(x, m.at, server, i);
      ServerRowIsJoin(x, locals, server, i);
    } else {
      KeptRowIsJoin(x, locals, server, i - |a|);
    }
  }

  /** The merged rows, looked up by id, are the pointwise join of the two tables. */
  lemma MergedIndexIsJoin<L(!new), S(!new)>(x: Sides<L, S>, locals: seq<L>, server: seq<S>, k: string)
    requires KeepsIds(x) && Distinct(Ids(x.serverId, server))
    ensures var l, s := Index(x.localId, locals).at, Index(x.serverId, server).at;
      var merged := Index(x.serverId, MergedList(x, locals, server)).at;
      (k in merged <==> k in l || k in s) && (k in merged ==> merged[k] == JoinAt(x, l, s, k))
  {
    var out := MergedList(x, locals, server);
    IndexHas(x.serverId, out, k);
    IndexHas(x.serverId, server, k);
    IndexHas(x.localId, locals, k);
    MergedIdsAreTheUnion(x, locals, server, k);
    if k in Ids(x.serverId, out) {
      var i := IndexKeepsLast(x.serverId, out, k);
      MergedIsJoin(x, locals, server, i);
    }
  }

  // ---------------------------------------------------------------------------
  // Order of the inputs
  // ---------------------------------------------------------------------------

  lemma MergedRowsFollow<L(!new), S(!new)>(x: Sides<L, S>, locals: seq<L>, server: seq<S>,
                               locals': seq<L>, server': seq<S>, c: S)
    requires KeepsIds(x) && Distinct(Ids(x.serverId, server)) && Distinct(Ids(x.serverId, server'))
    requires Index(x.localId, locals).at == Index(x.localId, locals').at
    requires Index(x.serverId, server).at == Index(x.serverId, server').at
    requires c in MergedList(x, locals, server)
    ensures c in MergedList(x, locals', server')
  {
    var out, out', k := MergedList(x, locals, server), MergedList(x, locals', server'), x.serverId(c);
    var i :| 0 <= i < |out| && out[i] == c;
    MergedIsJoin(x, locals, server, i);
    IndexHas(x.localId, locals', k);
    IndexHas(x.serverId, server', k);
    MergedIdsAreTheUnion(x, locals', server', k);
    assert k in Ids(x.serverId, out');
    var j :| 0 <= j < |out'| && Ids(x.serverId, out')[j] == k;
    IdsAt(x.serverId, out', j);
    MergedIsJoin(x, locals', server', j);
  }

  /** Permuting the inputs only permutes the merged rows. */
  lemma MergeIgnoresOrder<L(!new), S(!new)>(x: Sides<L, S>, locals: seq<L>, server: seq<S>,
                                            locals': seq<L>, server': seq<S>)
    requires KeepsIds(x)
    requires Distinct(Ids(x.localId, locals)) && Distinct(Ids(x.localId, locals'))
    requires Distinct(Ids(x.serverId, server)) && Distinct(Ids(x.serverId, server'))
    requires multiset(locals) == multiset(locals') && multiset(server) == multiset(server')
    ensures multiset(MergedList(x, locals, server)) == multiset(MergedList(x, locals', server'))
  {
    IndexIgnoresOrder(x.localId, locals, locals');
    IndexIgnoresOrder(x.serverId, server, server');
    var out, out' := MergedList(x, locals, server), MergedList(x, locals', server');
    forall c ensures c in out <==> c in out' {
      if c in out { MergedRowsFollow(x, locals, server, locals', server', c); }
      if c in out' { MergedRowsFollow(x, locals', server', locals, server, c); }
    }
    MergedIdsDistinctIff(x, locals, server);
    MergedIdsDistinctIff(x, locals', server');
    DistinctIdsDistinctItems(x.serverId, out);
    DistinctIdsDistinctItems(x.serverId, out');
    SameElementsSameMultiset(out, out');
  }
}
