/** The draft merge of client/src/services/crdt.ts. */
module Drafts {
  import opened Collections
  import opened KeyedMerge
  import opened Crdt

  datatype Draft = Draft(
    id: string, cardId: string, body: string,
    toneProfile: Option<string>, subjectLine: Option<string>,
    inReplyTo: Option<string>, references: Option<seq<string>>,
    modelUsed: Option<string>, tokensUsed: Option<int>,
    approved: bool, sentAt: Option<string>, createdAt: string)

  datatype LocalDraft = LocalDraft(draft: Draft, dirty: bool, modifiedAt: int)

  /** A logged approval conflict; the local side always wins it. */
  datatype ApprovalConflict = ApprovalConflict(cardId: string, resolution: Resolution)

  datatype DraftMergeResult = DraftMergeResult(
    drafts: seq<Draft>, toUpload: seq<LocalDraft>, conflicts: seq<ApprovalConflict>)

  function DraftId(d: Draft): string { d.id }

  function LocalDraftId(l: LocalDraft): string { l.draft.id }

  function PlainDraft(l: LocalDraft): Draft { l.draft }

  /** `a ?? b` */
  function Or<T>(a: Option<T>, b: Option<T>): Option<T> { if a.Some? then a else b }

  predicate NewerLocally(dp: DateParse, l: Draft, s: Draft) {
    ParseTime(dp, Some(l.createdAt)) > ParseTime(dp, Some(s.createdAt))
  }

  /** An approval the server has not got. */
  predicate ApprovedOnlyLocally(l: Draft, s: Draft) { l.approved && !s.approved }

  function JoinDraft(dp: DateParse, l: LocalDraft, s: Draft): Draft {
    var newer := NewerLocally(dp, l.draft, s);
    s.(approved := l.draft.approved || s.approved,
       sentAt := if ApprovedOnlyLocally(l.draft, s) then l.draft.sentAt else s.sentAt,
       toneProfile := if newer then Or(l.draft.toneProfile, s.toneProfile) else s.toneProfile,
       subjectLine := if newer then Or(l.draft.subjectLine, s.subjectLine) else s.subjectLine,
       inReplyTo := if newer then Or(l.draft.inReplyTo, s.inReplyTo) else s.inReplyTo,
       references := if newer then Or(l.draft.references, s.references) else s.references)
  }

  function DraftSides(dp: DateParse): Sides<LocalDraft, Draft> {
    Sides(LocalDraftId, DraftId, PlainDraft, (l: LocalDraft, s: Draft) => JoinDraft(dp, l, s))
  }

  /** Uploads of the server loop: met drafts whose approval the server lacks. */
  function ApprovalUploads(at: map<string, LocalDraft>, server: seq<Draft>): seq<LocalDraft> {
    if server == [] then []
    else
      var init, s := server[..|server| - 1], server[|server| - 1];
      ApprovalUploads(at, init) +
      if s.id in at && s.id !in Ids(DraftId, init) && ApprovedOnlyLocally(at[s.id].draft, s) then [at[s.id]] else []
  }

  function ApprovalConflicts(at: map<string, LocalDraft>, server: seq<Draft>): seq<ApprovalConflict> {
    if server == [] then []
    else
      var init, s := server[..|server| - 1], server[|server| - 1];
      ApprovalConflicts(at, init) +
      if s.id in at && s.id !in Ids(DraftId, init) && ApprovedOnlyLocally(at[s.id].draft, s)
      then [ApprovalConflict(s.cardId, LocalWins)] else []
  }

  function RestUploads(at: map<string, LocalDraft>, keys: seq<string>): seq<LocalDraft> {
    if keys == [] then []
    else
      var k := keys[|keys| - 1];
      RestUploads(at, keys[..|keys| - 1]) +
      if k in at && (at[k].dirty || at[k].draft.approved) then [at[k]] else []
  }

  function MergedDrafts(dp: DateParse, locals: seq<LocalDraft>, server: seq<Draft>): DraftMergeResult {
    var m := Index(LocalDraftId, locals);
    DraftMergeResult(
      MergedList(DraftSides(dp), locals, server),
      ApprovalUploads(m.at, server) + RestUploads(m.at, Unseen(m.keys, Ids(DraftId, server))),
      ApprovalConflicts(m.at, server))
  }

  /** `r` is the local value if the local draft is newer and has one, else the server's. */
  ghost predicate TakesMetadata<T>(newer: bool, local: Option<T>, server: Option<T>, r: Option<T>) {
    r == if newer && local.Some? then local else server
  }

  /** What a draft both sides hold becomes: the body is the server's; approved once either side approved it,
      with the sending time of the side that did; metadata from the newer draft where it has any. */
  ghost predicate DraftReconciled(dp: DateParse, l: LocalDraft, s: Draft, r: Draft) {
    && r.id == s.id && r.cardId == s.cardId && r.body == s.body && r.modelUsed == s.modelUsed
    && r.tokensUsed == s.tokensUsed && r.createdAt == s.createdAt
    && (r.approved <==> l.draft.approved || s.approved)
    && r.sentAt == (if l.draft.approved && !s.approved then l.draft.sentAt else s.sentAt)
    && forall a, b :: Reads(dp, Some(l.draft.createdAt), a) && Reads(dp, Some(s.createdAt), b) ==>
         && TakesMetadata(a > b, l.draft.toneProfile, s.toneProfile, r.toneProfile)
         && TakesMetadata(a > b, l.draft.subjectLine, s.subjectLine, r.subjectLine)
         && TakesMetadata(a > b, l.draft.inReplyTo, s.inReplyTo, r.inReplyTo)
         && TakesMetadata(a > b, l.draft.references, s.references, r.references)
  }

  /** The body of the server loop for a draft both sides hold. */
  method MergeDraftPair(dp: DateParse, local: LocalDraft, server: Draft)
    returns (mergedDraft: Draft, conflicts: seq<ApprovalConflict>, toUpload: seq<LocalDraft>)
    ensures DraftReconciled(dp, local, server, mergedDraft)
    ensures conflicts ==
      if local.draft.approved && !server.approved then [ApprovalConflict(server.cardId, LocalWins)] else []
    ensures toUpload == if local.draft.approved && !server.approved then [local] else []
    ensures mergedDraft == JoinDraft(dp, local, server)
  {
    conflicts, toUpload := [], [];
    mergedDraft := server.(body := server.body);
    if local.draft.approved && !server.approved {
      mergedDraft := mergedDraft.(approved := true, sentAt := local.draft.sentAt);
      conflicts := conflicts + [ApprovalConflict(server.cardId, LocalWins)];
      toUpload := toUpload + [local];
    }
    if ParseTime(dp, Some(local.draft.createdAt)) > ParseTime(dp, Some(server.createdAt)) {
      mergedDraft := mergedDraft.(
        toneProfile := Or(local.draft.toneProfile, server.toneProfile),
        subjectLine := Or(local.draft.subjectLine, server.subjectLine),
        inReplyTo := Or(local.draft.inReplyTo, server.inReplyTo),
        references := Or(local.draft.references, server.references));
    }
  }

  /** What the server loop has built once `seen` is processed. */
  ghost predicate DraftLoop(dp: DateParse, m: OrderedMap<LocalDraft>, seen: seq<Draft>, done: DraftMergeResult) {
    && done.drafts == ServerSide(DraftSides(dp), m.at, seen)
    && done.toUpload == ApprovalUploads(m.at, seen)
    && done.conflicts == ApprovalConflicts(m.at, seen)
  }

  lemma OneMoreDraft(seen: seq<Draft>, s: Draft)
    ensures (seen + [s])[..|seen|] == seen
    ensures Ids(DraftId, seen + [s]) == Ids(DraftId, seen) + [s.id]
    ensures Ids(DraftId, seen + [s])[..|seen|] == Ids(DraftId, seen)
  {
    IdsOneMore(DraftId, seen, s);
  }

  /** A server draft that meets no waiting local draft is adopted. */
  lemma DraftAdopted(dp: DateParse, m: OrderedMap<LocalDraft>, seen: seq<Draft>, s: Draft, done: DraftMergeResult)
    requires DraftLoop(dp, m, seen, done) && s.id !in Remaining(m, Ids(DraftId, seen)).at
    ensures Remaining(m, Ids(DraftId, seen + [s])) == Remaining(m, Ids(DraftId, seen))
    ensures DraftLoop(dp, m, seen + [s], done.(drafts := done.drafts + [s]))
  {
    OneMoreDraft(seen, s);
    RemainingAt(m, Ids(DraftId, seen), s.id);
    assert ApprovalUploads(m.at, seen) + [] == ApprovalUploads(m.at, seen);
    assert ApprovalConflicts(m.at, seen) + [] == ApprovalConflicts(m.at, seen);
  }

  /** One that does is joined with it; an approval the server lacks is logged and uploaded. */
  lemma DraftMet(dp: DateParse, m: OrderedMap<LocalDraft>, seen: seq<Draft>, s: Draft, done: DraftMergeResult)
    requires DraftLoop(dp, m, seen, done) && s.id in Remaining(m, Ids(DraftId, seen)).at
    ensures Remaining(m, Ids(DraftId, seen + [s])) == Remaining(m, Ids(DraftId, seen)).Delete(s.id)
    ensures var l := Remaining(m, Ids(DraftId, seen)).at[s.id];
      var unsent := ApprovedOnlyLocally(l.draft, s);
      DraftLoop(dp, m, seen + [s], DraftMergeResult(
        done.drafts + [JoinDraft(dp, l, s)],
        done.toUpload + (if unsent then [l] else []),
        done.conflicts + (if unsent then [ApprovalConflict(s.cardId, LocalWins)] else [])))
  {
    OneMoreDraft(seen, s);
    RemainingAt(m, Ids(DraftId, seen), s.id);
    assert DraftSides(dp).join(m.at[s.id], s) == JoinDraft(dp, m.at[s.id], s);
  }

  method MergeDrafts(dp: DateParse, localDrafts: seq<LocalDraft>, serverDrafts: seq<Draft>)
    returns (r: DraftMergeResult)
    ensures r == MergedDrafts(dp, localDrafts, serverDrafts)
  {
    var m := DraftLookup(localDrafts);
    IndexKeys(LocalDraftId, localDrafts);
    var localMap, merged := DraftServerSide(dp, m, serverDrafts);
    RemainingKeys(m, Ids(DraftId, serverDrafts));
    forall k | k in localMap.keys ensures k in localMap.at && k in m.at && localMap.at[k] == m.at[k] {
      UnseenMember(m.keys, Ids(DraftId, serverDrafts), k);
      RemainingAt(m, Ids(DraftId, serverDrafts), k);
    }
    r := DraftRemaining(dp, m.at, localMap, merged);
  }

  method DraftLookup(localDrafts: seq<LocalDraft>) returns (localMap: OrderedMap<LocalDraft>)
    ensures localMap == Index(LocalDraftId, localDrafts)
  {
    localMap := OrderedMap([], map[]);
    for i := 0 to |localDrafts|
      invariant localMap == Index(LocalDraftId, localDrafts[..i])
    {
      localMap := localMap.Set(localDrafts[i].draft.id, localDrafts[i]);
      assert localDrafts[..i + 1][..i] == localDrafts[..i];
    }
    assert localDrafts[..|localDrafts|] == localDrafts;
  }

  method DraftServerSide(dp: DateParse, m: OrderedMap<LocalDraft>, serverDrafts: seq<Draft>)
    returns (localMap: OrderedMap<LocalDraft>, r: DraftMergeResult)
    ensures localMap == Remaining(m, Ids(DraftId, serverDrafts))
    ensures DraftLoop(dp, m, serverDrafts, r)
  {
    localMap, r := m, DraftMergeResult([], [], []);
    for i := 0 to |serverDrafts|
      invariant localMap == Remaining(m, Ids(DraftId, serverDrafts[..i]))
      invariant DraftLoop(dp, m, serverDrafts[..i], r)
    {
      var server := serverDrafts[i];
      TakeOneMore(serverDrafts, i);
      if server.id !in localMap.at {
        DraftAdopted(dp, m, serverDrafts[..i], server, r);
        r := r.(drafts := r.drafts + [server]);
        continue;
      }
      DraftMet(dp, m, serverDrafts[..i], server, r);
      var mergedDraft, conflicts, toUpload := MergeDraftPair(dp, localMap.at[server.id], server);
      r := DraftMergeResult(r.drafts + [mergedDraft], r.toUpload + toUpload, r.conflicts + conflicts);
      localMap := localMap.Delete(server.id);
    }
    assert serverDrafts[..|serverDrafts|] == serverDrafts;
  }

  method DraftRemaining(ghost dp: DateParse, ghost at: map<string, LocalDraft>, localMap: OrderedMap<LocalDraft>,
                        merged: DraftMergeResult) returns (r: DraftMergeResult)
    requires forall k :: k in localMap.keys ==> k in localMap.at && k in at && localMap.at[k] == at[k]
    ensures r == DraftMergeResult(merged.drafts + Kept(DraftSides(dp), at, localMap.keys),
                                  merged.toUpload + RestUploads(at, localMap.keys), merged.conflicts)
  {
    r := merged;
    var keys := localMap.keys;
    for i := 0 to |keys|
      invariant r == DraftMergeResult(merged.drafts + Kept(DraftSides(dp), at, keys[..i]),
                                      merged.toUpload + RestUploads(at, keys[..i]), merged.conflicts)
    {
      var remaining := localMap.at[keys[i]];
      assert keys[..i + 1][..i] == keys[..i];
      r := r.(drafts := r.drafts + [remaining.draft]);
      if remaining.dirty || remaining.draft.approved {
        r := r.(toUpload := r.toUpload + [remaining]);
      }
    }
    assert keys[..|keys|] == keys;
  }

  // ---------------------------------------------------------------------------
  // Laws
  // ---------------------------------------------------------------------------

  lemma DraftSidesKeepIds(dp: DateParse)
    ensures KeepsIds(DraftSides(dp))
  {
  }

  lemma JoinReconcilesDraft(dp: DateParse, l: LocalDraft, s: Draft)
    ensures DraftReconciled(dp, l, s, JoinDraft(dp, l, s))
  {
  }

  /** The i-th merged draft: reconciled with the local draft of its id where the server first names it. */
  lemma MergedDraftReconciles(dp: DateParse, locals: seq<LocalDraft>, server: seq<Draft>, i: int)
    requires 0 <= i < |server|
    ensures
      var at, r, k := Index(LocalDraftId, locals).at, MergedDrafts(dp, locals, server).drafts, server[i].id;
      i < |r| &&
      if k in at && k !in Ids(DraftId, server[..i]) then DraftReconciled(dp, at[k], server[i], r[i])
      else r[i] == server[i]
  {
    var at, k := Index(LocalDraftId, locals).at, server[i].id;
    ServerSideAt(DraftSides(dp), at, server, i);
    if k in at {
      JoinReconcilesDraft(dp, at[k], server[i]);
    }
  }

  /** The draft with id `k` after a merge, told from the two sides. */
  lemma MergedDraftAt(dp: DateParse, locals: seq<LocalDraft>, server: seq<Draft>, k: string)
    requires Distinct(Ids(DraftId, server))
    ensures var l, s := Index(LocalDraftId, locals).at, Index(DraftId, server).at;
      var r := Index(DraftId, MergedDrafts(dp, locals, server).drafts).at;
      && (k in r <==> k in l || k in s)
      && (k in s && k !in l ==> r[k] == s[k])
      && (k in l && k !in s ==> r[k] == l[k].draft)
      && (k in l && k in s ==> DraftReconciled(dp, l[k], s[k], r[k]))
  {
    var l, s := Index(LocalDraftId, locals).at, Index(DraftId, server).at;
    DraftSidesKeepIds(dp);
    MergedIndexIsJoin(DraftSides(dp), locals, server, k);
    if k in l && k in s {
      JoinReconcilesDraft(dp, l[k], s[k]);
    }
  }

  /** The server lacks the approval of a draft with this card. */
  ghost predicate LacksApproval(at: map<string, LocalDraft>, server: seq<Draft>, cardId: string) {
    exists j :: 0 <= j < |server| && server[j].cardId == cardId &&
      server[j].id in at && at[server[j].id].draft.approved && !server[j].approved
  }

  lemma LacksOneMore(at: map<string, LocalDraft>, server: seq<Draft>, s: Draft, cardId: string)
    ensures LacksApproval(at, server + [s], cardId) <==>
      LacksApproval(at, server, cardId) ||
      (s.cardId == cardId && s.id in at && at[s.id].draft.approved && !s.approved)
  {
    var all := server + [s];
    if LacksApproval(at, server, cardId) {
      var j :| 0 <= j < |server| && server[j].cardId == cardId &&
        server[j].id in at && at[server[j].id].draft.approved && !server[j].approved;
      assert all[j] == server[j];
    }
    assert all[|server|] == s;
  }

  /** A conflict is logged exactly for each approval the server has not got, with the local side winning. */
  lemma {:induction false} ApprovalConflictIff(at: map<string, LocalDraft>, server: seq<Draft>, c: ApprovalConflict)
    requires Distinct(Ids(DraftId, server))
    ensures c in ApprovalConflicts(at, server) <==> c.resolution == LocalWins && LacksApproval(at, server, c.cardId)
    ensures |ApprovalConflicts(at, server)| == |ApprovalUploads(at, server)|
  {
    if server != [] {
      var n, ids := |server| - 1, Ids(DraftId, server);
      assert ids[..n] == Ids(DraftId, server[..n]);
      DistinctInit(ids);
      ApprovalConflictIff(at, server[..n], c);
      LacksOneMore(at, server[..n], server[n], c.cardId);
      SplitLast(server);
    }
  }

  /** Whether the draft with an id is approved; None when there is no such draft. */
  function LocalApproval(locals: seq<LocalDraft>, k: string): Option<bool> {
    var at := Index(LocalDraftId, locals).at;
    if k in at then Some(at[k].draft.approved) else None
  }

  function Approval(drafts: seq<Draft>, k: string): Option<bool> {
    var at := Index(DraftId, drafts).at;
    if k in at then Some(at[k].approved) else None
  }

  function Either(a: Option<bool>, b: Option<bool>): Option<bool> {
    if a.None? then b else if b.None? then a else Some(a.value || b.value)
  }

  /** A draft is approved after a merge exactly when one of the sides had it approved. */
  lemma MergeKeepsApprovals(dp: DateParse, locals: seq<LocalDraft>, server: seq<Draft>, k: string)
    requires Distinct(Ids(DraftId, server))
    ensures Approval(MergedDrafts(dp, locals, server).drafts, k) ==
      Either(LocalApproval(locals, k), Approval(server, k))
  {
    DraftSidesKeepIds(dp);
    MergedIndexIsJoin(DraftSides(dp), locals, server, k);
  }

  /** A run of draft merges; in between, approvals stay as the merge left them. */
  ghost predicate IsDraftRun(dp: DateParse, tables: seq<seq<LocalDraft>>, snapshots: seq<seq<Draft>>) {
    && |tables| == |snapshots| + 1
    && forall n :: 0 <= n < |snapshots| ==>
         Distinct(Ids(DraftId, snapshots[n])) &&
         KeepsApprovals(MergedDrafts(dp, tables[n], snapshots[n]).drafts, tables[n + 1])
  }

  ghost predicate KeepsApprovals(drafts: seq<Draft>, locals: seq<LocalDraft>) {
    forall k :: LocalApproval(locals, k) == Approval(drafts, k)
  }

  function AnyApproval(first: seq<LocalDraft>, snapshots: seq<seq<Draft>>, k: string): Option<bool> {
    if snapshots == [] then LocalApproval(first, k)
    else Either(AnyApproval(first, snapshots[..|snapshots| - 1], k), Approval(snapshots[|snapshots| - 1], k))
  }

  /** After any number of rounds `user_approved` is the disjunction of every approval merged. */
  lemma {:induction false} RunApprovalIsDisjunction(dp: DateParse, tables: seq<seq<LocalDraft>>,
                                                    snapshots: seq<seq<Draft>>, n: int, k: string)
    requires IsDraftRun(dp, tables, snapshots) && 0 <= n <= |snapshots|
    ensures LocalApproval(tables[n], k) == AnyApproval(tables[0], snapshots[..n], k)
  {
    if n > 0 {
      RunApprovalIsDisjunction(dp, tables, snapshots, n - 1, k);
      assert snapshots[..n][..n - 1] == snapshots[..n - 1];
      assert KeepsApprovals(MergedDrafts(dp, tables[n - 1], snapshots[n - 1]).drafts, tables[n]);
      MergeKeepsApprovals(dp, tables[n - 1], snapshots[n - 1], k);
    }
  }

  lemma {:induction false} ApprovalUploadsMember(at: map<string, LocalDraft>, server: seq<Draft>, l: LocalDraft)
    requires Distinct(Ids(DraftId, server)) && forall k :: k in at ==> at[k].draft.id == k
    ensures var s, k := Index(DraftId, server).at, l.draft.id;
      l in ApprovalUploads(at, server) <==>
      k in at && at[k] == l && k in s && ApprovedOnlyLocally(l.draft, s[k])
  {
    if server != [] {
      var n := |server| - 1;
      var ids := Ids(DraftId, server);
      assert ids[..n] == Ids(DraftId, server[..n]);
      DistinctInit(ids);
      ApprovalUploadsMember(at, server[..n], l);
      IndexHas(DraftId, server[..n], l.draft.id);
    }
  }

  lemma {:induction false} RestUploadsMember(at: map<string, LocalDraft>, keys: seq<string>, l: LocalDraft)
    requires forall k :: k in at ==> at[k].draft.id == k
    ensures var k := l.draft.id;
      l in RestUploads(at, keys) <==> k in keys && k in at && at[k] == l && (l.dirty || l.draft.approved)
  {
    if keys != [] {
      RestUploadsMember(at, keys[..|keys| - 1], l);
      MemberSplit(keys, l.draft.id);
    }
  }

  /** A local draft is uploaded exactly when the server lacks its approval, or lacks the draft
      and it is approved or edited. */
  lemma DraftUploadedIff(dp: DateParse, locals: seq<LocalDraft>, server: seq<Draft>, l: LocalDraft)
    requires Distinct(Ids(DraftId, server))
    ensures var at, s, k := Index(LocalDraftId, locals).at, Index(DraftId, server).at, l.draft.id;
      l in MergedDrafts(dp, locals, server).toUpload <==>
      k in at && at[k] == l &&
      if k in s then l.draft.approved && !s[k].approved else l.dirty || l.draft.approved
  {
    var m, ids, k := Index(LocalDraftId, locals), Ids(DraftId, server), l.draft.id;
    IndexKeys(LocalDraftId, locals);
    forall x | x in m.at ensures m.at[x].draft.id == x {
      var i := IndexKeepsLast(LocalDraftId, locals, x);
    }
    ApprovalUploadsMember(m.at, server, l);
    RestUploadsMember(m.at, Unseen(m.keys, ids), l);
    UnseenMember(m.keys, ids, k);
    IndexHas(DraftId, server, k);
  }

  /** The text fields a newer local draft would put over the server's. */
  predicate OverridesMetadata(l: Draft, s: Draft) {
    !(Or(l.toneProfile, s.toneProfile) == s.toneProfile && Or(l.subjectLine, s.subjectLine) == s.subjectLine &&
      Or(l.inReplyTo, s.inReplyTo) == s.inReplyTo && Or(l.references, s.references) == s.references)
  }

  /** Merging a merged draft with the same server draft again changes nothing, unless the local draft
      was newer and had metadata of its own: the merge keeps the server's creation time, so the
      second round hands the metadata back to the server. Body and approval never change again. */
  lemma DraftRemergeFixedIff(dp: DateParse, l: LocalDraft, s: Draft)
    ensures var once := JoinDraft(dp, l, s);
      JoinDraft(dp, l.(draft := once), s) == once <==>
      !(NewerLocally(dp, l.draft, s) && OverridesMetadata(l.draft, s))
    ensures var once := JoinDraft(dp, l, s);
      var twice := JoinDraft(dp, l.(draft := once), s);
      twice.body == once.body && twice.approved == once.approved && twice.sentAt == once.sentAt
  {
  }
}
