/** The `bt_feed_entry` table: row transitions, the selecting queries with SQL's three-valued
    logic, and what every run of repository calls keeps. */
module BtFeedEntries {
  import opened Ordering
  import opened Wrappers

  /** Put.io statuses and the local ones: Cleared is '遠端已清理', Removed '遠端已移除', FailedText
      '失敗'; `Other` holds every other string and none of these. */
  datatype PutioStatus =
    | InQueue | Downloading | Completed | Seeding | Error | Cleared | Removed | FailedText | Other(text: string)

  const TERMINAL_UNLANDED: set<PutioStatus> := {Cleared, Removed, FailedText, Error}

  datatype Entry = Entry(
    fetchedAt: int,
    matchedFilter: Option<int>,
    dispatchedAt: Option<int>,
    transferId: Option<int>,
    status: Option<PutioStatus>,
    localPath: Option<string>,
    remoteClearedAt: Option<int>)

  type Table = map<int, Entry>

  datatype Call =
    | InsertIfNew(id: int, now: int)
    | MarkMatched(id: int, filter: int)
    | MarkDispatched(id: int, filter: int, transfer: int, now: int)
    | MarkDispatchedManual(id: int, transfer: int, now: int)
    | UpdatePutioStatus(id: int, status: PutioStatus)
    | UpdateLocalPath(id: int, path: string)
    | ResetDispatch(id: int)
    | MarkRemoteCleared(id: int, now: int)
    | MarkRemoteRemoved(id: int, now: int)
    | DeleteStale(cutoff: int)

  /** What a call does to the row it names. */
  function Changed(e: Entry, call: Call): Entry {
    match call
    case MarkMatched(_, filter) => e.(matchedFilter := Some(filter))
    case MarkDispatched(_, filter, transfer, now) =>
      e.(matchedFilter := Some(filter), dispatchedAt := Some(now), transferId := Some(transfer),
         status := Some(InQueue))
    case MarkDispatchedManual(_, transfer, now) =>
      e.(transferId := Some(transfer), dispatchedAt := Some(now), status := Some(InQueue), localPath := None)
    case UpdatePutioStatus(_, status) => e.(status := Some(status))
    case UpdateLocalPath(_, path) => e.(localPath := Some(path))
    case ResetDispatch(_) => e.(transferId := None, status := None, dispatchedAt := None, localPath := None)
    case MarkRemoteCleared(_, now) => e.(remoteClearedAt := Some(now), status := Some(Cleared))
    case MarkRemoteRemoved(_, now) => e.(remoteClearedAt := Some(now), status := Some(Removed))
    case InsertIfNew(_, _) => e
    case DeleteStale(_) => e
  }

  /** `delete_stale` drops old rows that are unmatched or landed. */
  predicate DroppedBy(e: Entry, cutoff: int) {
    e.fetchedAt < cutoff && (e.matchedFilter.None? || e.localPath.Some?)
  }

  function After(t: Table, call: Call): Table {
    match call
    case DeleteStale(cutoff) => map id | id in t && !DroppedBy(t[id], cutoff) :: t[id]
    case InsertIfNew(id, now) => if id in t then t else t[id := Entry(now, None, None, None, None, None, None)]
    case _ => if call.id in t then t[call.id := Changed(t[call.id], call)] else t
  }

  function Run(t: Table, calls: seq<Call>): Table {
    if calls == [] then t else After(Run(t, calls[..|calls| - 1]), calls[|calls| - 1])
  }

  // ------------------------------------------------------------------ SQL conditions

  datatype Truth = True | False | Unknown

  function And(a: Truth, b: Truth): Truth {
    if a.False? || b.False? then False else if a.True? && b.True? then True else Unknown
  }

  function Not(a: Truth): Truth {
    match a
    case True => False
    case False => True
    case Unknown => Unknown
  }

  function Sql(b: bool): Truth { if b then True else False }

  /** `column IN (...)`: a NULL column answers Unknown, and WHERE drops the row. */
  function In(column: Option<PutioStatus>, values: set<PutioStatus>): Truth {
    match column
    case None => Unknown
    case Some(v) => Sql(v in values)
  }

  function Before(column: Option<int>, bound: int): Truth {
    match column
    case None => Unknown
    case Some(v) => Sql(v < bound)
  }

  predicate PendingLanding(e: Entry) { And(Sql(e.transferId.Some?), Sql(e.localPath.None?)).True? }

  predicate PendingDispatch(e: Entry) { And(Sql(e.matchedFilter.Some?), Sql(e.dispatchedAt.None?)).True? }

  predicate Landed(e: Entry) { Sql(e.localPath.Some?).True? }

  predicate TerminalUnlanded(e: Entry, statuses: set<PutioStatus>) {
    And(In(e.status, statuses), Sql(e.localPath.None?)).True?
  }

  predicate StaleGhost(e: Entry, cutoff: int) {
    And(And(And(Sql(e.dispatchedAt.Some?), Before(e.dispatchedAt, cutoff)), Sql(e.localPath.None?)),
        Not(In(e.status, TERMINAL_UNLANDED))).True?
  }

  predicate PendingRemoteCheck(e: Entry) {
    And(And(Sql(e.localPath.Some?), Sql(e.transferId.Some?)), Sql(e.remoteClearedAt.None?)).True?
  }

  /** What the selecting queries mean in terms of the columns, NULL or not. */
  lemma QueriesMean(e: Entry, cutoff: int)
    ensures PendingLanding(e) <==> e.transferId != None && e.localPath == None
    ensures PendingDispatch(e) <==> e.matchedFilter != None && e.dispatchedAt == None
    ensures Landed(e) <==> e.localPath != None
    ensures TerminalUnlanded(e, TERMINAL_UNLANDED) <==>
      && e.localPath == None
      && (e.status == Some(Cleared) || e.status == Some(Removed) || e.status == Some(FailedText)
          || e.status == Some(Error))
    ensures StaleGhost(e, cutoff) <==>
      && e.dispatchedAt != None && e.dispatchedAt.value < cutoff && e.localPath == None && e.status != None
      && e.status != Some(Cleared) && e.status != Some(Removed) && e.status != Some(FailedText)
      && e.status != Some(Error)
    ensures PendingRemoteCheck(e) <==> e.localPath != None && e.transferId != None && e.remoteClearedAt == None
  {
  }

  /** A row dispatched by hand, landed or not, is pending landing with the new transfer; its match, its
      fetch time and the clearing of its old transfer stay, and so do all other rows. */
  lemma ManualDispatchIsPending(t: Table, id: int, transfer: int, now: int)
    requires id in t
    ensures var u := After(t, MarkDispatchedManual(id, transfer, now));
      && u.Keys == t.Keys && PendingLanding(u[id])
      && u[id] == Entry(t[id].fetchedAt, t[id].matchedFilter, Some(now), Some(transfer), Some(InQueue), None,
                        t[id].remoteClearedAt)
      && forall other :: other in t && other != id ==> u[other] == t[other]
  {
  }

  predicate Dispatched(call: Call, id: int) { (call.MarkDispatched? || call.MarkDispatchedManual?) && call.id == id }

  /** Which call on a stored row writes which column, and what; no call writes any other row. */
  lemma WhoWrites(t: Table, call: Call, id: int)
    requires id in t && id in After(t, call)
    ensures var e, now := t[id], After(t, call)[id];
      && now.fetchedAt == e.fetchedAt
      && now.matchedFilter == (if (call.MarkMatched? || call.MarkDispatched?) && call.id == id then Some(call.filter)
                               else e.matchedFilter)
      && now.dispatchedAt == (if Dispatched(call, id) then Some(call.now)
                              else if call == ResetDispatch(id) then None else e.dispatchedAt)
      && now.transferId == (if Dispatched(call, id) then Some(call.transfer)
                            else if call == ResetDispatch(id) then None else e.transferId)
      && now.status == (if Dispatched(call, id) then Some(InQueue)
                        else if call == ResetDispatch(id) then None
                        else if call.UpdatePutioStatus? && call.id == id then Some(call.status)
                        else if call.MarkRemoteCleared? && call.id == id then Some(Cleared)
                        else if call.MarkRemoteRemoved? && call.id == id then Some(Removed) else e.status)
      && now.localPath == (if call.UpdateLocalPath? && call.id == id then Some(call.path)
                           else if call == ResetDispatch(id) || (call.MarkDispatchedManual? && call.id == id) then None
                           else e.localPath)
      && now.remoteClearedAt == (if (call.MarkRemoteCleared? || call.MarkRemoteRemoved?) && call.id == id
                                 then Some(call.now) else e.remoteClearedAt)
  {
  }

  /** A row comes into the table by the insert of a key that has none, blank but for its time. */
  lemma WhoInserts(t: Table, call: Call, id: int)
    requires id !in t
    ensures id in After(t, call) <==> call.InsertIfNew? && call.id == id
    ensures id in After(t, call) ==> After(t, call)[id] == Entry(call.now, None, None, None, None, None, None)
  {
  }

  /** Old rows go exactly when they were never matched or have landed; the others stay as they are. */
  lemma StaleRowsGo(t: Table, id: int, cutoff: int)
    requires id in t
    ensures var u := After(t, DeleteStale(cutoff));
      && (id in u <==> t[id].fetchedAt >= cutoff || (t[id].matchedFilter.Some? && t[id].localPath.None?))
      && (id in u ==> u[id] == t[id]) && u.Keys <= t.Keys
  {
  }

  // ------------------------------------------------------------------ what runs keep

  /** Transfer id, dispatch time and Put.io status are all null or all set, and a landed row has them. */
  predicate Coherent(e: Entry) {
    && (e.transferId.Some? <==> e.dispatchedAt.Some?)
    && (e.transferId.Some? <==> e.status.Some?)
    && (e.localPath.Some? ==> e.transferId.Some?)
  }

  predicate AllCoherent(t: Table) {
    forall id :: id in t ==> Coherent(t[id])
  }

  /** The rows the workers make these calls on: dispatched ones, polled from a query. */
  predicate CallableOn(t: Table, call: Call) {
    (call.UpdatePutioStatus? || call.UpdateLocalPath? || call.MarkRemoteCleared? || call.MarkRemoteRemoved?) ==>
      (call.id in t ==> t[call.id].transferId.Some?)
  }

  /** One call keeps the table coherent exactly when no status, path or clearing is written to
      a row that is not dispatched. */
  lemma CoherentStep(t: Table, call: Call)
    requires AllCoherent(t)
    ensures AllCoherent(After(t, call)) <==> CallableOn(t, call)
  {
    if !CallableOn(t, call) {
      assert !Coherent(After(t, call)[call.id]);
    }
  }

  predicate AllCallable(t: Table, calls: seq<Call>) {
    calls == [] ||
    (AllCallable(t, calls[..|calls| - 1]) && CallableOn(Run(t, calls[..|calls| - 1]), calls[|calls| - 1]))
  }

  lemma {:induction false} CoherentRun(t: Table, calls: seq<Call>)
    requires AllCoherent(t) && AllCallable(t, calls)
    ensures AllCoherent(Run(t, calls))
  {
    if calls != [] {
      CoherentRun(t, calls[..|calls| - 1]);
      CoherentStep(Run(t, calls[..|calls| - 1]), calls[|calls| - 1]);
    }
  }

  /** A worker that listed a dispatched row may still write to it later: whatever other calls come in
      between, it is a row the call is meant for, unless one of them reset or inserted it. */
  lemma {:induction false} LateCallIsCallable(t: Table, between: seq<Call>, late: Call)
    requires !late.DeleteStale? && late.id in t && t[late.id].transferId.Some?
    requires forall k :: 0 <= k < |between| ==> between[k] != ResetDispatch(late.id)
    requires forall k :: 0 <= k < |between| ==> !(between[k].InsertIfNew? && between[k].id == late.id)
    ensures late.id in Run(t, between) ==> Run(t, between)[late.id].transferId.Some?
    ensures CallableOn(Run(t, between), late)
  {
    if between != [] {
      LateCallIsCallable(t, between[..|between| - 1], late);
    }
  }

  /** That exception is real: a refresh tick lists the landed row 1; the row is dispatched again by hand,
      its new transfer is not found and the landing tick resets it; then the refresh tick writes the
      status of the old transfer, and the row is half dispatched. */
  lemma LateRefreshBreaksCoherence()
    ensures var landed := Entry(0, None, Some(1), Some(42), Some(Completed), Some("episode"), None);
      var t := map[1 := landed];
      var between := [MarkDispatchedManual(1, 43, 2), ResetDispatch(1)];
      && AllCoherent(t) && PendingRemoteCheck(landed) && AllCoherent(Run(t, between))
      && !AllCoherent(After(Run(t, between), UpdatePutioStatus(1, Seeding)))
  {
    var t := map[1 := Entry(0, None, Some(1), Some(42), Some(Completed), Some("episode"), None)];
    var between := [MarkDispatchedManual(1, 43, 2), ResetDispatch(1)];
    assert between[..1] == [MarkDispatchedManual(1, 43, 2)] && between[..1][..0] == [];
    assert Run(t, []) == t;
    assert Run(t, between[..1]) == After(t, MarkDispatchedManual(1, 43, 2));
    var u := Run(t, between);
    assert u == After(Run(t, between[..1]), ResetDispatch(1));
    assert !Coherent(After(u, UpdatePutioStatus(1, Seeding))[1]);
  }

  /** Which of the three reconciliation queries return a row, given one cutoff. */
  function Classes(e: Entry, cutoff: int): set<int> {
    (if Landed(e) then {1} else {}) +
    (if TerminalUnlanded(e, TERMINAL_UNLANDED) then {2} else {}) +
    (if StaleGhost(e, cutoff) then {3} else {})
  }

  /** The landed, terminal-unlanded and stale-ghost queries split the old dispatched rows of a
      table into three disjoint classes that miss none of them. */
  ghost predicate Partitioned(t: Table) {
    forall id, cutoff: int :: id in t && t[id].dispatchedAt.Some? && t[id].dispatchedAt.value < cutoff ==>
      |Classes(t[id], cutoff)| == 1
  }

  lemma CoherentPartition(t: Table)
    requires AllCoherent(t)
    ensures Partitioned(t)
  {
    forall id, cutoff: int | id in t && t[id].dispatchedAt.Some? && t[id].dispatchedAt.value < cutoff
      ensures |Classes(t[id], cutoff)| == 1
    {
      var classes := Classes(t[id], cutoff);
      assert classes == {1} || classes == {2} || classes == {3};
    }
  }

  /** They do so in every reachable table. */
  lemma {:induction false} QueriesPartition(calls: seq<Call>)
    requires AllCallable(map[], calls)
    ensures Partitioned(Run(map[], calls))
  {
    CoherentRun(map[], calls);
    CoherentPartition(Run(map[], calls));
  }

  /** Coherence is what makes that true: an old dispatched row falls through all three queries
      exactly when it is unlanded and its status is NULL. */
  lemma FallsThroughIffStatusNull(e: Entry, cutoff: int)
    requires e.dispatchedAt.Some? && e.dispatchedAt.value < cutoff
    ensures Classes(e, cutoff) == {} <==> e.localPath.None? && e.status.None?
  {
    if e.localPath.Some? {
      assert 1 in Classes(e, cutoff);
    } else if e.status.Some? {
      assert 2 in Classes(e, cutoff) || 3 in Classes(e, cutoff);
    }
  }

  /** `delete_stale` takes a transfer in flight exactly when the row is old and was never matched.
      Manual dispatch leaves `matched_filter_id` null, so such rows exist. */
  lemma DeleteStaleOrphansIff(t: Table, id: int, cutoff: int)
    requires id in t && PendingLanding(t[id])
    ensures id !in After(t, DeleteStale(cutoff)) <==> t[id].fetchedAt < cutoff && t[id].matchedFilter.None?
  {
  }

  lemma ManualDispatchCanBeOrphaned()
    ensures var calls := [InsertIfNew(1, 0), MarkDispatchedManual(1, 42, 5)];
      && AllCallable(map[], calls)
      && 1 in Run(map[], calls) && PendingLanding(Run(map[], calls)[1])
      && 1 !in After(Run(map[], calls), DeleteStale(10))
  {
    var calls := [InsertIfNew(1, 0), MarkDispatchedManual(1, 42, 5)];
    var first := [InsertIfNew(1, 0)];
    assert calls[..1] == first && first[..0] == [];
    assert Run(map[], []) == map[];
    assert Run(map[], first) == After(map[], InsertIfNew(1, 0));
    assert AllCallable(map[], first[..0]);
    assert AllCallable(map[], first);
  }

  /** A matched row is kept until it has landed, and never loses its match. */
  lemma {:induction false} MatchedKeptUntilLanded(t: Table, calls: seq<Call>, id: int)
    requires id in t && t[id].matchedFilter.Some?
    requires forall k :: 0 <= k < |calls| && calls[k].DeleteStale? ==>
      id in Run(t, calls[..k]) ==> !Landed(Run(t, calls[..k])[id])
    ensures id in Run(t, calls) && Run(t, calls)[id].matchedFilter.Some?
    ensures PendingDispatch(Run(t, calls)[id]) <==> Run(t, calls)[id].dispatchedAt.None?
  {
    if calls != [] {
      var init := calls[..|calls| - 1];
      forall k | 0 <= k < |init| && init[k].DeleteStale?
        ensures id in Run(t, init[..k]) ==> !Landed(Run(t, init[..k])[id])
      {
        assert init[..k] == calls[..k];
      }
      MatchedKeptUntilLanded(t, init, id);
    }
  }

  // ------------------------------------------------------------------ remote clearing

  predicate Dispatches(call: Call, id: int) {
    (call.MarkDispatched? || call.MarkDispatchedManual?) && call.id == id
  }

  /** The transfer of the row is gone for good: neither worker will poll or delete it. */
  predicate Settled(e: Entry) {
    e.localPath.Some? && e.remoteClearedAt.Some?
  }

  /** The row is in neither of the two sets the workers poll, and no call but a dispatch brings it back. */
  ghost predicate OutOfReach(t: Table, id: int) {
    id in t ==> Settled(t[id]) || t[id].transferId.None?
  }

  lemma OutOfReachIsUnpolled(t: Table, id: int)
    requires OutOfReach(t, id)
    ensures id in t ==> !PendingLanding(t[id]) && !PendingRemoteCheck(t[id])
  {
  }

  lemma CallKeepsOutOfReach(t: Table, call: Call, id: int)
    requires OutOfReach(t, id) && !Dispatches(call, id)
    ensures OutOfReach(After(t, call), id)
    ensures id in t && Settled(t[id]) && call != ResetDispatch(id) && !call.DeleteStale? ==>
      id in After(t, call) && Settled(After(t, call)[id])
  {
  }

  /** Without a new dispatch a cleared landed row never comes back into either polling query. */
  lemma {:induction false} ClearedIsFinal(t: Table, calls: seq<Call>, id: int)
    requires id in t && Settled(t[id])
    requires forall k :: 0 <= k < |calls| ==> !Dispatches(calls[k], id)
    ensures OutOfReach(Run(t, calls), id)
    ensures (forall k :: 0 <= k < |calls| ==> calls[k] != ResetDispatch(id) && !calls[k].DeleteStale?) ==>
      id in Run(t, calls) && Settled(Run(t, calls)[id])
  {
    if calls != [] {
      var init, call := calls[..|calls| - 1], calls[|calls| - 1];
      ClearedIsFinal(t, init, id);
      CallKeepsOutOfReach(Run(t, init), call, id);
    }
  }

  // ------------------------------------------------------------------ the repository

  class BtFeedEntryRepository {
    var rows: Table

    constructor ()
      ensures rows == map[]
    {
      rows := map[];
    }

    /** `id` stands for the unique (feed_id, guid) pair. */
    method InsertIfNew(id: int, now: int) returns (inserted: bool)
      modifies this`rows
      ensures rows == After(old(rows), Call.InsertIfNew(id, now))
      ensures inserted <==> id !in old(rows)
    {
      if id in rows { return false; }
      rows := rows[id := Entry(now, None, None, None, None, None, None)];
      return true;
    }

    method MarkMatched(id: int, filter: int)
      modifies this`rows
      ensures rows == After(old(rows), Call.MarkMatched(id, filter))
    {
      if id in rows { rows := rows[id := rows[id].(matchedFilter := Some(filter))]; }
    }

    method MarkDispatched(id: int, filter: int, transfer: int, now: int)
      modifies this`rows
      ensures rows == After(old(rows), Call.MarkDispatched(id, filter, transfer, now))
    {
      if id in rows {
        rows := rows[id := rows[id].(matchedFilter := Some(filter), dispatchedAt := Some(now),
                                     transferId := Some(transfer), status := Some(InQueue))];
      }
    }

    method MarkDispatchedManual(id: int, transfer: int, now: int)
      modifies this`rows
      ensures rows == After(old(rows), Call.MarkDispatchedManual(id, transfer, now))
    {
      if id !in rows { return; }
      rows := rows[id := rows[id].(transferId := Some(transfer), dispatchedAt := Some(now),
                                   status := Some(InQueue), localPath := None)];
    }

    method UpdatePutioStatus(id: int, status: PutioStatus)
      modifies this`rows
      ensures rows == After(old(rows), Call.UpdatePutioStatus(id, status))
    {
      if id in rows { rows := rows[id := rows[id].(status := Some(status))]; }
    }

    method UpdateLocalPath(id: int, path: string)
      modifies this`rows
      ensures rows == After(old(rows), Call.UpdateLocalPath(id, path))
    {
      if id in rows { rows := rows[id := rows[id].(localPath := Some(path))]; }
    }

    method ResetDispatch(id: int)
      modifies this`rows
      ensures rows == After(old(rows), Call.ResetDispatch(id))
    {
      if id !in rows { return; }
      rows := rows[id := rows[id].(transferId := None, status := None, dispatchedAt := None, localPath := None)];
    }

    method MarkRemoteCleared(id: int, now: int)
      modifies this`rows
      ensures rows == After(old(rows), Call.MarkRemoteCleared(id, now))
    {
      if id !in rows { return; }
      rows := rows[id := rows[id].(remoteClearedAt := Some(now), status := Some(Cleared))];
    }

    method MarkRemoteRemoved(id: int, now: int)
      modifies this`rows
      ensures rows == After(old(rows), Call.MarkRemoteRemoved(id, now))
    {
      if id !in rows { return; }
      rows := rows[id := rows[id].(remoteClearedAt := Some(now), status := Some(Removed))];
    }

    method DeleteStale(cutoff: int) returns (count: nat)
      modifies this`rows
      ensures rows == After(old(rows), Call.DeleteStale(cutoff))
      ensures count == |old(rows)| - |rows|
    {
      var gone := set id | id in rows && DroppedBy(rows[id], cutoff);
      count := |gone|;
      KeysWithout(rows, gone);
      rows := rows - gone;
    }

    /** The rows waiting to land, by ascending id. */
    method ListPendingLanding() returns (ids: seq<int>)
      ensures Ascending(Pending(rows), ids)
      ensures forall id :: id in ids <==> id in rows && PendingLanding(rows[id])
    {
      ids := Sorted(Pending(rows));
    }

    /** Up to `limit` landed uncleared rows, the newest fetched first, ties in any order. */
    method ListLandedPendingRemoteCheck(limit: nat) returns (ids: seq<int>)
      ensures NewestFirst(rows, Unchecked(rows), ids, limit)
    {
      var left := Unchecked(rows);
      ids := [];
      while left != {} && |ids| < limit
        invariant Picked(rows, ids, left) && |ids| <= limit
        decreases left
      {
        NewestExists(rows, left);
        var newest :| newest in left && forall id :: id in left ==> rows[id].fetchedAt <= rows[newest].fetchedAt;
        PickNext(rows, ids, left, newest);
        ids, left := ids + [newest], left - {newest};
      }
    }
  }

  /** The newest unchecked rows are in `ids`, newest first, the others in `left`. */
  ghost predicate Picked(t: Table, ids: seq<int>, left: set<int>) {
    && left <= Unchecked(t)
    && (forall k :: 0 <= k < |ids| ==> ids[k] in Unchecked(t) && ids[k] !in left)
    && (forall id :: id in Unchecked(t) ==> id in left || id in ids)
    && |ids| + |left| == |Unchecked(t)|
    && (forall j, k :: 0 <= j < k < |ids| ==> ids[j] != ids[k] && t[ids[j]].fetchedAt >= t[ids[k]].fetchedAt)
    && (forall id, k :: id in left && 0 <= k < |ids| ==> t[ids[k]].fetchedAt >= t[id].fetchedAt)
  }

  lemma PickNext(t: Table, ids: seq<int>, left: set<int>, newest: int)
    requires Picked(t, ids, left) && newest in left
    requires forall id :: id in left ==> t[id].fetchedAt <= t[newest].fetchedAt
    ensures Picked(t, ids + [newest], left - {newest})
  {
  }

  function Pending(t: Table): set<int> {
    set id | id in t && PendingLanding(t[id])
  }

  function Unchecked(t: Table): set<int> {
    set id | id in t && PendingRemoteCheck(t[id])
  }

  /** What `ORDER BY fetched_at DESC LIMIT limit` may answer over `candidates`. */
  ghost predicate NewestFirst(t: Table, candidates: set<int>, ids: seq<int>, limit: nat)
    requires candidates <= t.Keys
  {
    && |ids| == (if |candidates| < limit then |candidates| else limit)
    && (forall k :: 0 <= k < |ids| ==> ids[k] in candidates)
    && (forall j, k :: 0 <= j < k < |ids| ==> ids[j] != ids[k] && t[ids[j]].fetchedAt >= t[ids[k]].fetchedAt)
    && (forall id, k :: id in candidates && id !in ids && 0 <= k < |ids| ==> t[ids[k]].fetchedAt >= t[id].fetchedAt)
  }

  lemma KeysWithout(t: Table, gone: set<int>)
    requires gone <= t.Keys
    ensures |t - gone| == |t| - |gone|
  {
    assert (t - gone).Keys == t.Keys - gone;
  }

  lemma {:induction false} NewestExists(t: Table, s: set<int>)
    requires s != {} && s <= t.Keys
    ensures exists newest :: newest in s && forall id :: id in s ==> t[id].fetchedAt <= t[newest].fetchedAt
  {
    HasElement(s);
    var x :| x in s;
    if s != {x} {
      NewestExists(t, s - {x});
      var m :| m in s - {x} && forall id :: id in s - {x} ==> t[id].fetchedAt <= t[m].fetchedAt;
      var newest := if t[x].fetchedAt >= t[m].fetchedAt then x else m;
      assert forall id :: id in s ==> id == x || id in s - {x};
      assert newest in s;
    }
  }
}
