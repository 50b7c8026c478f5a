/** Runs of the remote-refresh tick: when it drains its set, which rows it reaches, which it starves,
    and what becomes of a row that was cleared. */
module RemoteRefresh {
  import opened Ordering
  import opened Wrappers
  import opened BtFeedEntries
  import opened LandingWorker

  function ToSet(ids: seq<int>): set<int> { set id | id in ids }

  lemma {:induction false} DistinctCount(ids: seq<int>)
    requires forall j, k :: 0 <= j < k < |ids| ==> ids[j] != ids[k]
    ensures |ToSet(ids)| == |ids|
  {
    if ids == [] {
      assert ToSet(ids) <= {};
    } else {
      var init := ids[..|ids| - 1];
      DistinctCount(init);
      assert forall id :: id in ToSet(ids) <==> id in ToSet(init) + {ids[|ids| - 1]};
      assert ToSet(ids) == ToSet(init) + {ids[|ids| - 1]};
    }
  }

  lemma PolledLeave(t: Table, ids: seq<int>, env: int -> Attempt, now: int)
    requires forall id :: id in ids ==> id in Unchecked(t) && Clears(env(id))
    ensures Unchecked(RefreshedTable(t, ids, env, now)) == Unchecked(t) - ToSet(ids)
  {
    forall id | id in ids ensures !PendingRemoteCheck(Refreshed(t[id], env(id), now)) {
      PolledLeavesIffCleared(t[id], env(id), now);
    }
  }

  lemma {:induction false} Subset(a: set<int>, b: set<int>)
    requires a <= b
    ensures |a| <= |b|
  {
    assert b == a + (b - a);
  }

  // ------------------------------------------------------------------ which rows are reached

  function Newer(t: Table, id: int): set<int>
    requires id in t
  {
    set n | n in Unchecked(t) && t[n].fetchedAt > t[id].fetchedAt
  }

  function Ties(t: Table, id: int): set<int>
    requires id in t
  {
    set n | n in Unchecked(t) && n != id && t[n].fetchedAt == t[id].fetchedAt
  }

  /** A tick polls a row exactly when fewer than `batch` newer rows are uncleared; rows fetched at
      the very same time compete in the database's order. */
  lemma PolledNowIff(t: Table, ids: seq<int>, id: int, batch: nat)
    requires NewestFirst(t, Unchecked(t), ids, batch) && id in Unchecked(t)
    ensures id in ids ==> |Newer(t, id)| < batch
    ensures |Newer(t, id)| + |Ties(t, id)| < batch ==> id in ids
    ensures Ties(t, id) == {} ==> (id in ids <==> |Newer(t, id)| < batch)
  {
    DistinctCount(ids);
    if id in ids {
      PolledHasRoom(t, ids, id, batch);
    } else {
      UnpolledIsCrowded(t, ids, id, batch);
    }
  }

  lemma PolledHasRoom(t: Table, ids: seq<int>, id: int, batch: nat)
    requires NewestFirst(t, Unchecked(t), ids, batch) && id in ids && id in t
    ensures |Newer(t, id)| < batch
  {
    var k :| 0 <= k < |ids| && ids[k] == id;
    assert forall n :: n in Newer(t, id) ==> t[n].fetchedAt > t[ids[k]].fetchedAt;
    assert forall n :: n in Newer(t, id) ==> n in ids;
    DistinctCount(ids);
    Subset(Newer(t, id) + {id}, ToSet(ids));
  }

  lemma UnpolledIsCrowded(t: Table, ids: seq<int>, id: int, batch: nat)
    requires NewestFirst(t, Unchecked(t), ids, batch) && id in Unchecked(t) && id !in ids
    ensures batch <= |Newer(t, id)| + |Ties(t, id)|
  {
    DistinctCount(ids);
    forall n | n in ToSet(ids) ensures n in Newer(t, id) + Ties(t, id) {
      var k :| 0 <= k < |ids| && ids[k] == n;
      assert t[ids[k]].fetchedAt >= t[id].fetchedAt;
    }
    Subset(ToSet(ids), Newer(t, id) + Ties(t, id));
    Subset(ToSet(ids) + {id}, Unchecked(t));
  }

  /** A run of ticks: the rows each polled, what was answered, the table before each and after the last. */
  datatype Ticks = Ticks(tables: seq<Table>, polled: seq<seq<int>>, answers: seq<int -> Attempt>, now: seq<int>) {
    ghost predicate Valid(batch: nat) {
      && |tables| == |polled| + 1 && |answers| == |polled| && |now| == |polled|
      && forall i :: 0 <= i < |polled| ==> TickAt(i, batch)
    }

    ghost predicate TickAt(i: nat, batch: nat)
      requires i < |polled| && |tables| == |polled| + 1 && |answers| == |polled| && |now| == |polled|
    {
      && NewestFirst(tables[i], Unchecked(tables[i]), polled[i], batch)
      && tables[i + 1] == RefreshedTable(tables[i], polled[i], answers[i], now[i])
    }

    function Before(n: nat): Ticks
      requires n <= |polled| && |tables| == |polled| + 1 && |answers| == |polled| && |now| == |polled|
    {
      Ticks(tables[..n + 1], polled[..n], answers[..n], now[..n])
    }

    predicate Polls(id: int) { exists i :: 0 <= i < |polled| && id in polled[i] }

    /** At some tick fewer than `batch` newer rows are uncleared. */
    predicate HasRoom(id: int, batch: nat)
      requires |tables| == |polled| + 1
    {
      exists i :: 0 <= i < |polled| && RoomAt(i, id, batch)
    }

    predicate RoomAt(i: nat, id: int, batch: nat)
      requires i < |tables|
    {
      id in tables[i] && |Newer(tables[i], id)| < batch
    }
  }

  lemma BeforeIsValid(r: Ticks, n: nat, batch: nat)
    requires r.Valid(batch) && n <= |r.polled|
    ensures r.Before(n).Valid(batch)
  {
    forall i | 0 <= i < n ensures r.Before(n).TickAt(i, batch) {
      assert r.TickAt(i, batch);
    }
  }

  /** A tick whose polls all clear takes min(batch, n) rows off the n that were left. */
  lemma TickDrains(t: Table, ids: seq<int>, batch: nat, env: int -> Attempt, now: int)
    requires NewestFirst(t, Unchecked(t), ids, batch)
    requires forall id :: id in ids ==> Clears(env(id))
    ensures var t' := RefreshedTable(t, ids, env, now);
      && Unchecked(t') <= Unchecked(t)
      && |Unchecked(t')| == if |Unchecked(t)| < batch then 0 else |Unchecked(t)| - batch
  {
    PolledLeave(t, ids, env, now);
    DistinctCount(ids);
    assert ToSet(ids) <= Unchecked(t);
  }

  /** When every poll made clears its row, k ticks leave n - k * batch rows: ceil(n / batch) ticks
      drain the set. Nothing is asked of the answers for rows that are not polled. */
  lemma {:induction false} RefreshDrains(r: Ticks, batch: nat)
    requires r.Valid(batch)
    requires forall i, id :: 0 <= i < |r.polled| && id in r.polled[i] ==> Clears(r.answers[i](id))
    ensures var n, k := |Unchecked(r.tables[0])|, |r.polled|;
      && Unchecked(r.tables[k]) <= Unchecked(r.tables[0])
      && |Unchecked(r.tables[k])| == (if n < k * batch then 0 else n - k * batch)
      && (k * batch >= n ==> Unchecked(r.tables[k]) == {})
    decreases |r.polled|
  {
    if r.polled != [] {
      var k := |r.polled| - 1;
      BeforeIsValid(r, k, batch);
      assert forall i :: 0 <= i < k ==> r.Before(k).polled[i] == r.polled[i] && r.Before(k).answers[i] == r.answers[i];
      RefreshDrains(r.Before(k), batch);
      assert r.TickAt(k, batch);
      TickDrains(r.tables[k], r.polled[k], batch, r.answers[k], r.now[k]);
      assert (k + 1) * batch == k * batch + batch;
    }
  }

  /** A row not polled by a tick is as before; fetch times never change and no row enters the set. */
  lemma TickKeeps(t: Table, ids: seq<int>, env: int -> Attempt, now: int, id: int)
    requires id in t
    ensures var t' := RefreshedTable(t, ids, env, now);
      && t'.Keys == t.Keys && t'[id].fetchedAt == t[id].fetchedAt && (id !in ids ==> t'[id] == t[id])
      && Unchecked(t') <= Unchecked(t) && Ties(t', id) <= Ties(t, id)
  {
    var t' := RefreshedTable(t, ids, env, now);
    forall n | n in Unchecked(t') ensures n in Unchecked(t) && t'[n].fetchedAt == t[n].fetchedAt {
      if n in ids && !PendingRemoteCheck(t[n]) {
        NeverReturns(t[n], env(n), now);
      }
    }
  }

  lemma NeverReturns(e: Entry, a: Attempt, now: int)
    ensures PendingRemoteCheck(Refreshed(e, a, now)) ==> PendingRemoteCheck(e)
    ensures Refreshed(e, a, now).fetchedAt == e.fetchedAt
  {
  }

  lemma {:induction false} UnpolledStays(r: Ticks, batch: nat, id: int)
    requires r.Valid(batch) && id in Unchecked(r.tables[0])
    ensures var t := r.tables[|r.polled|];
      && id in t && Ties(t, id) <= Ties(r.tables[0], id)
      && (!r.Polls(id) ==> id in Unchecked(t) && t[id] == r.tables[0][id])
    decreases |r.polled|
  {
    if r.polled != [] {
      var n := |r.polled| - 1;
      var init := r.Before(n);
      BeforeIsValid(r, n, batch);
      UnpolledStays(init, batch, id);
      assert r.TickAt(n, batch);
      TickKeeps(r.tables[n], r.polled[n], r.answers[n], r.now[n], id);
      assert init.Polls(id) ==> r.Polls(id) by {
        if i :| 0 <= i < |init.polled| && id in init.polled[i] {
          assert id in r.polled[i];
        }
      }
    }
  }

  /** Over any run of ticks a row is polled exactly when, at some tick, fewer than `batch` newer
      rows are uncleared; a row with ties is polled only then. */
  lemma {:induction false} PolledWithinIff(r: Ticks, batch: nat, id: int)
    requires r.Valid(batch) && id in Unchecked(r.tables[0])
    ensures r.Polls(id) ==> r.HasRoom(id, batch)
    ensures Ties(r.tables[0], id) == {} ==> (r.Polls(id) <==> r.HasRoom(id, batch))
    decreases |r.polled|
  {
    if r.polled != [] {
      var n := |r.polled| - 1;
      var init := r.Before(n);
      BeforeIsValid(r, n, batch);
      PolledWithinIff(init, batch, id);
      UnpolledStays(init, batch, id);
      assert r.TickAt(n, batch);
      PollsSplit(r, n, id, batch);
      if !init.Polls(id) {
        PolledNowIff(r.tables[n], r.polled[n], id, batch);
      }
    }
  }

  lemma PollsSplit(r: Ticks, n: nat, id: int, batch: nat)
    requires r.Valid(batch) && n + 1 == |r.polled|
    ensures r.Polls(id) <==> r.Before(n).Polls(id) || id in r.polled[n]
    ensures r.HasRoom(id, batch) <==> r.Before(n).HasRoom(id, batch) || r.RoomAt(n, id, batch)
  {
    var init := r.Before(n);
    assert forall i :: 0 <= i < n ==> init.polled[i] == r.polled[i];
    assert forall i :: 0 <= i < n ==> init.RoomAt(i, id, batch) == r.RoomAt(i, id, batch);
    if r.Polls(id) {
      var i :| 0 <= i < |r.polled| && id in r.polled[i];
      assert i < n ==> id in init.polled[i];
    }
    if init.Polls(id) {
      var i :| 0 <= i < |init.polled| && id in init.polled[i];
      assert id in r.polled[i];
    }
    if r.HasRoom(id, batch) {
      var i :| 0 <= i < |r.polled| && r.RoomAt(i, id, batch);
      assert i < n ==> init.RoomAt(i, id, batch);
    }
    if init.HasRoom(id, batch) {
      var i :| 0 <= i < |init.polled| && init.RoomAt(i, id, batch);
      assert r.RoomAt(i, id, batch);
    }
  }

  /** As many newer rows as the batch holds stand before row `id`. */
  ghost predicate Blocked(t: Table, id: int, stuck: set<int>, batch: nat) {
    && id in Unchecked(t) && |stuck| == batch && stuck <= Unchecked(t)
    && forall n :: n in stuck ==> t[n].fetchedAt > t[id].fetchedAt
  }

  lemma BlockedTick(t: Table, ids: seq<int>, id: int, stuck: set<int>, batch: nat, env: int -> Attempt, now: int)
    requires Blocked(t, id, stuck, batch) && NewestFirst(t, Unchecked(t), ids, batch)
    requires forall n :: n in stuck ==> !Clears(env(n))
    ensures id !in ids
    ensures var t' := RefreshedTable(t, ids, env, now); Blocked(t', id, stuck, batch) && t'[id] == t[id]
  {
    PolledNowIff(t, ids, id, batch);
    assert forall n :: n in stuck ==> n in Newer(t, id);
    Subset(stuck, Newer(t, id));
    var t' := RefreshedTable(t, ids, env, now);
    forall n | n in stuck ensures n in Unchecked(t') && t'[n].fetchedAt == t[n].fetchedAt {
      PolledLeavesIffCleared(t[n], env(n), now);
    }
  }

  /** So newest first starves: a full batch of newer rows whose polls never clear keeps an older row
      from ever being polled, however many ticks pass. */
  lemma {:induction false} RefreshStarves(r: Ticks, batch: nat, id: int, stuck: set<int>)
    requires r.Valid(batch) && Blocked(r.tables[0], id, stuck, batch)
    requires forall i, n :: 0 <= i < |r.answers| && n in stuck ==> !Clears(r.answers[i](n))
    ensures !r.Polls(id)
    ensures var t := r.tables[|r.polled|]; Blocked(t, id, stuck, batch) && t[id] == r.tables[0][id]
    decreases |r.polled|
  {
    if r.polled != [] {
      var n := |r.polled| - 1;
      BeforeIsValid(r, n, batch);
      RefreshStarves(r.Before(n), batch, id, stuck);
      assert r.TickAt(n, batch);
      BlockedTick(r.tables[n], r.polled[n], id, stuck, batch, r.answers[n], r.now[n]);
      PollsSplit(r, n, id, batch);
    }
  }

  function LandedAt(fetchedAt: int): Entry {
    Entry(fetchedAt, Some(1), Some(0), Some(7), Some(Downloading), Some("episode"), None)
  }

  /** Row 2 is the older one, and its transfer is gone; row 1 keeps downloading. */
  function Answer(id: int): Attempt {
    Attempt(if id == 2 then Raises(NotFound) else Ok(Transfer(Downloading, None, None)),
            Raises(Unexpected), Raises(Unexpected), n => Raises(Unexpected), Ok(true), Ok(()))
  }

  const TWO_ROWS: Table := map[1 := LandedAt(10), 2 := LandedAt(5)]

  function StarvingTicks(k: nat): Ticks {
    Ticks(seq(k + 1, i => TWO_ROWS), seq(k, i => [1]), seq(k, i => Answer), seq(k, i => 0))
  }

  /** With a batch of one the older of these two rows is never polled, though one poll would clear
      it: runs of every length exist, and no run with these answers polls it. */
  lemma StarvedForever(k: nat, r: Ticks)
    ensures 2 in Unchecked(TWO_ROWS) && Clears(Answer(2))
    ensures StarvingTicks(k).Valid(1)
    ensures r.Valid(1) && r.tables[0] == TWO_ROWS && (forall i :: 0 <= i < |r.answers| ==> r.answers[i] == Answer) ==>
      !r.Polls(2)
  {
    assert Unchecked(TWO_ROWS) == {1, 2};
    assert NewestFirst(TWO_ROWS, {1, 2}, [1], 1);
    assert RefreshedTable(TWO_ROWS, [1], Answer, 0) == TWO_ROWS;
    assert Blocked(TWO_ROWS, 2, {1}, 1);
    if r.Valid(1) && r.tables[0] == TWO_ROWS && forall i :: 0 <= i < |r.answers| ==> r.answers[i] == Answer {
      RefreshStarves(r, 1, 2, {1});
    }
  }

  // ------------------------------------------------------------------ cleared rows

  /** Neither tick touches a row out of reach, whatever Put.io answers; only a dispatch brings it back. */
  lemma MovedKeepsOutOfReach(t: Table, t': Table, move: Move, id: int)
    requires Moved(t, t', move) && OutOfReach(t, id) && (move.Calls? ==> !Dispatches(move.call, id))
    ensures OutOfReach(t', id)
    ensures id in t && Settled(t[id]) && !Removes(move, id) ==> id in t' && Settled(t'[id])
  {
    match move
    case LandTick(env, now) =>
      var pending :| Ascending(Pending(t), pending) && t' == Processed(t, pending, env, now);
      assert id !in pending;
    case PollTick(batch, poll, now) =>
      var ids :| NewestFirst(t, Unchecked(t), ids, batch) && t' == RefreshedTable(t, ids, poll, now);
      assert id !in ids;
    case Calls(call) => CallKeepsOutOfReach(t, call, id);
  }

  /** A repository call that takes the row away or resets it; the workers' own resets are in the ticks. */
  predicate Removes(move: Move, id: int) {
    move.Calls? && (move.call == ResetDispatch(id) || move.call.DeleteStale?)
  }

  /** A cleared landed row is never polled or deleted again, however ticks of both kinds, their
      answers and all other repository calls follow, until it is dispatched anew. */
  lemma {:induction false} ClearedIsFinalForWorkers(ts: seq<Table>, moves: seq<Move>, id: int)
    requires |ts| == |moves| + 1 && id in ts[0] && Settled(ts[0][id])
    requires forall k :: 0 <= k < |moves| ==> Moved(ts[k], ts[k + 1], moves[k])
    requires forall k :: 0 <= k < |moves| ==> moves[k].Calls? ==> !Dispatches(moves[k].call, id)
    ensures OutOfReach(ts[|moves|], id)
    ensures id !in Pending(ts[|moves|]) && id !in Unchecked(ts[|moves|])
    ensures (forall k :: 0 <= k < |moves| ==> !Removes(moves[k], id)) ==>
      id in ts[|moves|] && Settled(ts[|moves|][id])
  {
    if moves != [] {
      var n := |moves| - 1;
      ClearedIsFinalForWorkers(ts[..n + 1], moves[..n], id);
      MovedKeepsOutOfReach(ts[n], ts[n + 1], moves[n], id);
    }
    OutOfReachIsUnpolled(ts[|moves|], id);
  }

  /** A matched row is kept until it has landed and never loses its match, however ticks of both kinds,
      their answers and all other repository calls follow. */
  lemma {:induction false} MatchedKeptByWorkers(ts: seq<Table>, moves: seq<Move>, id: int)
    requires |ts| == |moves| + 1 && id in ts[0] && ts[0][id].matchedFilter.Some?
    requires forall k :: 0 <= k < |moves| ==> Moved(ts[k], ts[k + 1], moves[k])
    requires forall k :: 0 <= k < |moves| && moves[k].Calls? && moves[k].call.DeleteStale? && id in ts[k] ==>
      !Landed(ts[k][id])
    ensures var t := ts[|moves|];
      && id in t && t[id].matchedFilter.Some?
      && (PendingDispatch(t[id]) <==> t[id].dispatchedAt.None?)
  {
    if moves != [] {
      var n := |moves| - 1;
      MatchedKeptByWorkers(ts[..n + 1], moves[..n], id);
      MovedKeepsMatch(ts[n], ts[n + 1], moves[n], id);
    }
  }

  lemma MovedKeepsMatch(t: Table, t': Table, move: Move, id: int)
    requires Moved(t, t', move) && id in t && t[id].matchedFilter.Some?
    requires move.Calls? && move.call.DeleteStale? ==> !Landed(t[id])
    ensures id in t' && t'[id].matchedFilter.Some?
  {
  }

  /** A row that a tick does not list causes no event of that tick: no poll result, no delete. */
  lemma {:induction false} UnlistedIsSilent(rows: Table, done: seq<int>, env: Answers, poll: int -> Attempt, now: int,
                                            id: int)
    requires id !in done && forall n :: n in done ==> n in rows
    ensures forall k :: 0 <= k < |EventsOf(rows, done, env, now)| ==> EventsOf(rows, done, env, now)[k].id != id
    ensures forall k :: 0 <= k < |AllRefreshEvents(done, poll)| ==> AllRefreshEvents(done, poll)[k].id != id
  {
    if done != [] {
      var last := done[|done| - 1];
      UnlistedIsSilent(rows, done[..|done| - 1], env, poll, now, id);
      OwnEventsOnly(last, rows[last], env(last, 0), env(last, 1), now);
    }
  }
}
