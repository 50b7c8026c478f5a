/** The task-history rows of BT entries: opened by dispatches, closed by landing ticks through the
    newest open row of the entry's task, tidied at boot. */
module BtHistory {
  import opened Ordering
  import opened Wrappers
  import opened BtFeedEntries
  import opened LandingWorker
  import Bus = ProgressBus
  import P = ProgressModel
  import R = ProgressRuns

  type Rows = seq<P.HistoryRow>

  /** `TaskIdMapRepository.allocate`: one stable task sn for each entry. */
  ghost predicate Injective(sns: int -> int) {
    forall a, b :: sns(a) == sns(b) ==> a == b
  }

  const NO_META: P.Meta := P.Meta(None, None, None)

  predicate OpenFor(row: P.HistoryRow, sn: int) { row.sn == sn && row.Open() }

  /** What `get_latest_in_progress_by_sn` finds. */
  function NewestOpen(rows: Rows, sn: int): (id: Option<nat>)
    ensures id.Some? ==> id.value < |rows| && OpenFor(rows[id.value], sn)
    ensures forall i :: id.GetOr(0) <= i < |rows| && OpenFor(rows[i], sn) ==> id == Some(i)
  {
    if rows == [] then None
    else if OpenFor(rows[|rows| - 1], sn) then Some(|rows| - 1)
    else NewestOpen(rows[..|rows| - 1], sn)
  }

  function CloseNewest(rows: Rows, sn: int, status: P.Status, filename: Option<string>, now: int): Rows {
    match NewestOpen(rows, sn)
    case None => rows
    case Some(id) => P.RowFinished(rows, id, status, now, 0, NO_META, filename)
  }

  /** `_finish_task_history`. */
  method FinishTaskHistory(history: Bus.TaskHistoryRepository, sn: int, status: P.Status, filename: Option<string>,
                           now: int)
    modifies history
    ensures history.rows == CloseNewest(old(history.rows), sn, status, filename, now)
  {
    var id := history.GetLatestInProgressBySn(sn);
    assert id == NewestOpen(history.rows, sn) by {
      var newest := NewestOpen(history.rows, sn);
      assert newest.Some? ==> OpenFor(history.rows[newest.value], sn);
      assert id.Some? ==> OpenFor(history.rows[id.value], sn);
    }
    if id.None? {
      return;
    }
    history.RecordFinish(id.value, status, now, 0, NO_META, filename);
  }

  /** The table after the `HistoryClosed` events of some landing work, in order. */
  function CloseAll(rows: Rows, events: seq<Event>, sns: int -> int, now: int): Rows {
    if events == [] then rows
    else
      var before := CloseAll(rows, events[..|events| - 1], sns, now);
      match events[|events| - 1]
      case HistoryClosed(id, status, filename) => CloseNewest(before, sns(id), status, filename, now)
      case _ => before
  }

  /** Each of them goes through `_finish_task_history`. */
  method TellHistory(history: Bus.TaskHistoryRepository, events: seq<Event>, sns: int -> int, now: int)
    modifies history
    ensures history.rows == CloseAll(old(history.rows), events, sns, now)
  {
    for i := 0 to |events|
      invariant history.rows == CloseAll(old(history.rows), events[..i], sns, now)
    {
      assert events[..i + 1][..i] == events[..i];
      match events[i] {
        case HistoryClosed(id, status, filename) => FinishTaskHistory(history, sns(id), status, filename, now);
        case _ =>
      }
    }
    assert events[..|events|] == events;
  }

  lemma {:induction false} CloseAllSplits(rows: Rows, a: seq<Event>, b: seq<Event>, sns: int -> int, now: int)
    ensures CloseAll(rows, a + b, sns, now) == CloseAll(CloseAll(rows, a, sns, now), b, sns, now)
  {
    if b == [] {
      assert a + b == a;
    } else {
      CloseAllSplits(rows, a, b[..|b| - 1], sns, now);
      assert (a + b)[..|a + b| - 1] == a + b[..|b| - 1];
    }
  }

  lemma {:induction false} CloseAllIgnores(rows: Rows, events: seq<Event>, sns: int -> int, now: int)
    requires forall k :: 0 <= k < |events| ==> !events[k].HistoryClosed?
    ensures CloseAll(rows, events, sns, now) == rows
  {
    if events != [] {
      CloseAllIgnores(rows, events[..|events| - 1], sns, now);
    }
  }

  lemma CloseAllOnly(rows: Rows, front: seq<Event>, close: Event, back: seq<Event>, sns: int -> int, now: int)
    requires close.HistoryClosed?
    requires forall k :: 0 <= k < |front| ==> !front[k].HistoryClosed?
    requires forall k :: 0 <= k < |back| ==> !back[k].HistoryClosed?
    ensures CloseAll(rows, front + [close] + back, sns, now) ==
      CloseNewest(rows, sns(close.id), close.finalStatus, close.filename, now)
  {
    CloseAllSplits(rows, front + [close], back, sns, now);
    CloseAllIgnores(CloseAll(rows, front + [close], sns, now), back, sns, now);
    assert (front + [close])[..|front|] == front;
    CloseAllIgnores(rows, front, sns, now);
  }

  // ------------------------------------------------------------------ what one row's share of a tick closes

  /** The status and file name a deciding outcome closes the history with. */
  function Closing(o: Outcome): Option<(P.Status, Option<string>)> {
    match o
    case Lands(path) => Some((P.Complete, Some(path)))
    case RemoteError => Some((P.LandingFailed, None))
    case Fails(f) => if f.RateLimited? then None else Some((P.LandingFailed, None))
    case _ => None
  }

  function Deciding(first: Attempt, second: Attempt): Outcome {
    if Decide(first).Fails? && Decide(first).failure.RateLimited? then Decide(second) else Decide(first)
  }

  function Closed(rows: Rows, sn: int, closing: Option<(P.Status, Option<string>)>, now: int): Rows {
    match closing
    case None => rows
    case Some(c) => CloseNewest(rows, sn, c.0, c.1, now)
  }

  lemma FailureCloses(rows: Rows, id: int, sns: int -> int, now: int)
    ensures CloseAll(rows, FailureEvents(id), sns, now) == CloseNewest(rows, sns(id), P.LandingFailed, None, now)
  {
    var close := HistoryClosed(id, P.LandingFailed, None);
    CloseAllOnly(rows, [Failing(id)], close, [CardClosed(id, P.Failed, None)], sns, now);
    assert [Failing(id)] + [close] + [CardClosed(id, P.Failed, None)] == FailureEvents(id);
  }

  lemma LandingCloses(rows: Rows, id: int, path: string, a: Attempt, sns: int -> int, now: int)
    ensures CloseAll(rows, LandingEvents(id, path, a), sns, now) ==
      CloseNewest(rows, sns(id), P.Complete, Some(path), now)
  {
    var close := HistoryClosed(id, P.Complete, Some(path));
    var back := [CardClosed(id, P.Complete, Some(path))]
      + if a.autoDelete == Ok(true) then [DeleteRequested(id)] else [];
    CloseAllOnly(rows, [Landing(id, path)], close, back, sns, now);
    assert [Landing(id, path)] + [close] + back == LandingEvents(id, path, a);
  }

  lemma AttemptCloses(rows: Rows, id: int, listed: Entry, a: Attempt, sns: int -> int, now: int)
    ensures CloseAll(rows, AttemptEvents(id, listed, a), sns, now) ==
      if Decide(a).Fails? then rows else Closed(rows, sns(id), Closing(Decide(a)), now)
  {
    if a.transfer.Raises? {
      CloseAllIgnores(rows, AttemptEvents(id, listed, a), sns, now);
    } else if a.transfer.value.status == Error {
      FailureCloses(rows, id, sns, now);
    } else {
      var update := UpdateEvents(id, listed, a.transfer.value);
      CloseAllIgnores(rows, update, sns, now);
      if Decide(a).Lands? {
        CloseAllSplits(rows, update, LandingEvents(id, Decide(a).path, a), sns, now);
        LandingCloses(rows, id, Decide(a).path, a, sns, now);
      }
    }
  }

  /** A row's share of a tick closes at most one history row, as its deciding attempt says. */
  lemma HandleCloses(rows: Rows, id: int, e: Entry, first: Attempt, second: Attempt, sns: int -> int, now: int)
    ensures CloseAll(rows, Handle(id, e, first, second, now).events, sns, now) ==
      Closed(rows, sns(id), Closing(Deciding(first, second)), now)
  {
    var ev1, ev2 := AttemptEvents(id, e, first), AttemptEvents(id, e, second);
    AttemptCloses(rows, id, e, first, sns, now);
    FailureCloses(rows, id, sns, now);
    if Decide(first).Fails? {
      CloseAllSplits(rows, ev1, FailureEvents(id), sns, now);
      CloseAllSplits(rows, ev1, ev2, sns, now);
      CloseAllSplits(rows, ev1 + ev2, FailureEvents(id), sns, now);
      AttemptCloses(rows, id, e, second, sns, now);
    }
  }

  // ------------------------------------------------------------------ open rows of one task

  /** The ids of the open rows of a task, oldest first. */
  function OpenIds(rows: Rows, sn: int): seq<nat> {
    if rows == [] then []
    else OpenIds(rows[..|rows| - 1], sn) + if OpenFor(rows[|rows| - 1], sn) then [|rows| - 1] else []
  }

  lemma {:induction false} OpenIdsAre(rows: Rows, sn: int)
    ensures forall id: nat :: id in OpenIds(rows, sn) <==> id < |rows| && OpenFor(rows[id], sn)
    ensures NewestOpen(rows, sn) ==
      if OpenIds(rows, sn) == [] then None else Some(OpenIds(rows, sn)[|OpenIds(rows, sn)| - 1])
  {
    if rows != [] {
      OpenIdsAre(rows[..|rows| - 1], sn);
    }
  }

  lemma {:induction false} NoneOpen(rows: Rows, sn: int)
    requires forall k :: 0 <= k < |rows| ==> !rows[k].Open()
    ensures OpenIds(rows, sn) == []
  {
    if rows != [] {
      NoneOpen(rows[..|rows| - 1], sn);
    }
  }

  /** Two tables that agree on the rows of one task, and on which rows are whose. */
  ghost predicate SameFor(rows: Rows, rows': Rows, sn: int) {
    && |rows'| == |rows|
    && forall k :: 0 <= k < |rows| ==> rows'[k].sn == rows[k].sn && (rows[k].sn == sn ==> rows'[k] == rows[k])
  }

  lemma {:induction false} SameOpenIds(rows: Rows, rows': Rows, sn: int)
    requires SameFor(rows, rows', sn)
    ensures OpenIds(rows', sn) == OpenIds(rows, sn) && NewestOpen(rows', sn) == NewestOpen(rows, sn)
  {
    if rows != [] {
      SameOpenIds(rows[..|rows| - 1], rows'[..|rows| - 1], sn);
    }
  }

  lemma CloseOther(rows: Rows, sn: int, other: int, status: P.Status, filename: Option<string>, now: int)
    requires sn != other
    ensures SameFor(rows, CloseNewest(rows, other, status, filename, now), sn)
  {
  }

  lemma ClosedAlike(rows: Rows, rows': Rows, sn: int, closing: Option<(P.Status, Option<string>)>, now: int)
    requires SameFor(rows, rows', sn)
    ensures SameFor(Closed(rows, sn, closing, now), Closed(rows', sn, closing, now), sn)
  {
    SameOpenIds(rows, rows', sn);
  }

  lemma {:induction false} CloseNewestPops(rows: Rows, sn: int, status: P.Status, filename: Option<string>, now: int)
    requires status != P.InProgress
    ensures OpenIds(CloseNewest(rows, sn, status, filename, now), sn) ==
      if OpenIds(rows, sn) == [] then [] else OpenIds(rows, sn)[..|OpenIds(rows, sn)| - 1]
  {
    if rows != [] {
      var init, last := rows[..|rows| - 1], rows[|rows| - 1];
      var closed := CloseNewest(rows, sn, status, filename, now);
      if OpenFor(last, sn) {
        assert closed[..|rows| - 1] == init;
      } else {
        CloseNewestPops(init, sn, status, filename, now);
        assert closed[..|rows| - 1] == CloseNewest(init, sn, status, filename, now);
        assert closed[|rows| - 1] == last;
      }
    }
  }

  // ------------------------------------------------------------------ a whole tick

  /** Of a whole tick only the entry's own share reaches the history of its task. */
  lemma {:induction false} TickCloses(rows: Rows, t: Table, done: seq<int>, env: Answers, now: int, sns: int -> int,
                                      id: int)
    requires Injective(sns) && id in t && forall n :: n in done ==> n in t
    requires forall j, k :: 0 <= j < k < |done| ==> done[j] < done[k]
    ensures SameFor(if id in done then Closed(rows, sns(id), Closing(Deciding(env(id, 0), env(id, 1))), now) else rows,
                    CloseAll(rows, EventsOf(t, done, env, now), sns, now), sns(id))
  {
    if done != [] {
      var init, last := done[..|done| - 1], done[|done| - 1];
      TickCloses(rows, t, init, env, now, sns, id);
      var before := CloseAll(rows, EventsOf(t, init, env, now), sns, now);
      CloseAllSplits(rows, EventsOf(t, init, env, now),
                     Handle(last, t[last], env(last, 0), env(last, 1), now).events, sns, now);
      HandleCloses(before, last, t[last], env(last, 0), env(last, 1), sns, now);
      var closing := Closing(Deciding(env(last, 0), env(last, 1)));
      assert id in done <==> id in init || id == last;
      if id == last {
        assert id !in init;
        ClosedAlike(rows, before, sns(id), closing, now);
      } else {
        assert sns(id) != sns(last);
        if closing.Some? {
          CloseOther(before, sns(id), sns(last), closing.value.0, closing.value.1, now);
        }
      }
    }
  }

  // ------------------------------------------------------------------ runs

  /** The feed-entry table and the history table. */
  datatype World = World(table: Table, rows: Rows)

  /** `Dispatch` by a filter or, without one, by hand; `Other` is any other repository call. */
  datatype Step =
    | Dispatch(id: int, filter: Option<int>, transfer: int, title: string, feed: string, external: string, now: int)
    | LandTick(pending: seq<int>, env: Answers, now: int)
    | PollTick(polled: seq<int>, batch: nat, poll: int -> Attempt, now: int)
    | Other(call: Call)
    | Boot(now: int)

  /** The row a dispatch opens; it is given no starting time. */
  function OpenRow(sn: int, title: string, feed: string, external: string): P.HistoryRow {
    P.HistoryRow(sn, None, title, P.Meta(Some(feed), None, None), P.InProgress, None, None, 0,
                 Some("bt"), Some(external))
  }

  /** A dispatch of a stored entry, by a filter or by hand, gives it the new transfer, leaves it pending
      landing unless a filter dispatched a landed one, and opens one row of its task that names the
      episode, its feed and its source. */
  lemma DispatchOpens(w: World, step: Step, sns: int -> int)
    requires step.Dispatch? && step.id in w.table
    ensures var u := Stepped(w, step, sns);
      && (PendingLanding(u.table[step.id]) <==> w.table[step.id].localPath.None? || step.filter.None?)
      && u.table[step.id].transferId == Some(step.transfer) && |u.rows| == |w.rows| + 1
      && u.rows[..|w.rows|] == w.rows
      && var row := u.rows[|w.rows|];
         && row.sn == sns(step.id) && row.Open() && row.finishedAt.None? && row.startedAt.None?
         && row.filename == step.title && row.meta.bangumiName == Some(step.feed)
         && row.source == Some("bt") && row.externalId == Some(step.external) && row.retries == 0
  {
  }

  lemma AscendingIn(t: Table, pending: seq<int>)
    requires Ascending(Pending(t), pending)
    ensures forall id :: id in pending <==> id in t && PendingLanding(t[id])
  {
    assert forall id :: id in Pending(t) <==> id in t && PendingLanding(t[id]);
  }

  /** A step that cannot be taken changes nothing. */
  ghost function Stepped(w: World, step: Step, sns: int -> int): World {
    match step
    case Dispatch(id, filter, transfer, title, feed, external, now) =>
      if id !in w.table then w
      else
        World(After(w.table, match filter {
                               case Some(f) => MarkDispatched(id, f, transfer, now)
                               case None => MarkDispatchedManual(id, transfer, now)
                             }),
              w.rows + [OpenRow(sns(id), title, feed, external)])
    case LandTick(pending, env, now) =>
      if !Ascending(Pending(w.table), pending) then w
      else
        AscendingIn(w.table, pending);
        World(Processed(w.table, pending, env, now), CloseAll(w.rows, EventsOf(w.table, pending, env, now), sns, now))
    case PollTick(polled, batch, poll, now) =>
      if !NewestFirst(w.table, Unchecked(w.table), polled, batch) then w
      else w.(table := RefreshedTable(w.table, polled, poll, now))
    case Other(call) =>
      if call.MarkDispatched? || call.MarkDispatchedManual? then w else w.(table := After(w.table, call))
    case Boot(now) => w.(rows := P.NormalizeAll(P.InterruptAll(w.rows, now)))
  }

  ghost function Ran(w: World, steps: seq<Step>, sns: int -> int): World {
    if steps == [] then w else Stepped(Ran(w, steps[..|steps| - 1], sns), steps[|steps| - 1], sns)
  }

  /** The landing tick closes a history row of this entry. */
  ghost predicate ClosesFor(w: World, step: Step, id: int) {
    && step.LandTick? && Ascending(Pending(w.table), step.pending) && id in step.pending
    && Closing(Deciding(step.env(id, 0), step.env(id, 1))).Some?
  }

  /** The dispatches of an entry that no close has answered, as the row ids they opened: a close
      answers the latest one, and a boot answers all. */
  ghost function Unanswered(w: World, steps: seq<Step>, sns: int -> int, id: int): seq<nat> {
    if steps == [] then OpenIds(w.rows, sns(id))
    else
      var init, step := steps[..|steps| - 1], steps[|steps| - 1];
      var before, v := Unanswered(w, init, sns, id), Ran(w, init, sns);
      if step.Boot? then []
      else if step.Dispatch? && step.id == id && id in v.table then before + [|v.rows|]
      else if ClosesFor(v, step, id) && before != [] then before[..|before| - 1]
      else before
  }

  lemma OpenIdsStep(w: World, step: Step, sns: int -> int, id: int)
    requires Injective(sns)
    ensures var before, after := OpenIds(w.rows, sns(id)), OpenIds(Stepped(w, step, sns).rows, sns(id));
      after == (if step.Boot? then []
                else if step.Dispatch? && step.id == id && id in w.table then before + [|w.rows|]
                else if ClosesFor(w, step, id) && before != [] then before[..|before| - 1]
                else before)
  {
    match step
    case Dispatch(n, _, _, title, feed, external, _) =>
      var row := OpenRow(sns(n), title, feed, external);
      assert (w.rows + [row])[..|w.rows|] == w.rows;
    case LandTick(pending, env, now) =>
      if Ascending(Pending(w.table), pending) {
        LandTickOpenIds(w, pending, env, now, sns, id);
      }
    case Boot(now) =>
      var rows := P.NormalizeAll(P.InterruptAll(w.rows, now));
      assert forall k :: 0 <= k < |rows| ==> !rows[k].Open();
      NoneOpen(rows, sns(id));
    case _ =>
  }

  lemma LandTickOpenIds(w: World, pending: seq<int>, env: Answers, now: int, sns: int -> int, id: int)
    requires Injective(sns) && Ascending(Pending(w.table), pending)
    ensures var step := Step.LandTick(pending, env, now);
      var before, after := OpenIds(w.rows, sns(id)), OpenIds(Stepped(w, step, sns).rows, sns(id));
      after == if ClosesFor(w, step, id) && before != [] then before[..|before| - 1] else before
  {
    AscendingIn(w.table, pending);
    var after := CloseAll(w.rows, EventsOf(w.table, pending, env, now), sns, now);
    if id in w.table {
      TickCloses(w.rows, w.table, pending, env, now, sns, id);
      var closing := Closing(Deciding(env(id, 0), env(id, 1)));
      SameOpenIds(if id in pending then Closed(w.rows, sns(id), closing, now) else w.rows, after, sns(id));
      if id in pending && closing.Some? {
        CloseNewestPops(w.rows, sns(id), closing.value.0, closing.value.1, now);
      }
    } else {
      UnlistedKeeps(w.rows, w.table, pending, env, now, sns, id);
      SameOpenIds(w.rows, after, sns(id));
    }
  }

  lemma {:induction false} UnlistedKeeps(rows: Rows, t: Table, done: seq<int>, env: Answers, now: int, sns: int -> int,
                                         id: int)
    requires Injective(sns) && id !in done && forall n :: n in done ==> n in t
    ensures SameFor(rows, CloseAll(rows, EventsOf(t, done, env, now), sns, now), sns(id))
  {
    if done != [] {
      var init, last := done[..|done| - 1], done[|done| - 1];
      UnlistedKeeps(rows, t, init, env, now, sns, id);
      var before := CloseAll(rows, EventsOf(t, init, env, now), sns, now);
      CloseAllSplits(rows, EventsOf(t, init, env, now),
                     Handle(last, t[last], env(last, 0), env(last, 1), now).events, sns, now);
      HandleCloses(before, last, t[last], env(last, 0), env(last, 1), sns, now);
      var closing := Closing(Deciding(env(last, 0), env(last, 1)));
      assert sns(id) != sns(last);
      if closing.Some? {
        CloseOther(before, sns(id), sns(last), closing.value.0, closing.value.1, now);
      }
    }
  }

  /** Over any run of dispatches, ticks, resets, other calls and boots, whatever Put.io answers: the
      open history rows of an entry are exactly its dispatches not answered by a close. */
  lemma {:induction false} OpenRowsAreUnanswered(w: World, steps: seq<Step>, sns: int -> int, id: int)
    requires Injective(sns)
    ensures OpenIds(Ran(w, steps, sns).rows, sns(id)) == Unanswered(w, steps, sns, id)
  {
    if steps != [] {
      var init := steps[..|steps| - 1];
      OpenRowsAreUnanswered(w, init, sns, id);
      OpenIdsStep(Ran(w, init, sns), steps[|steps| - 1], sns, id);
    }
  }

  // ------------------------------------------------------------------ failures in the recent list

  predicate NoBoot(steps: seq<Step>) {
    forall k :: 0 <= k < |steps| ==> !steps[k].Boot?
  }

  lemma {:induction false} CloseAllKeepsClosed(rows: Rows, events: seq<Event>, sns: int -> int, now: int, r: nat)
    requires r < |rows| && !rows[r].Open()
    ensures |CloseAll(rows, events, sns, now)| == |rows| && CloseAll(rows, events, sns, now)[r] == rows[r]
  {
    if events != [] {
      CloseAllKeepsClosed(rows, events[..|events| - 1], sns, now, r);
    }
  }

  /** Between two boots a closed row is frozen. */
  lemma {:induction false} ClosedUntilBoot(w: World, steps: seq<Step>, sns: int -> int, r: nat)
    requires NoBoot(steps) && r < |w.rows| && !w.rows[r].Open()
    ensures r < |Ran(w, steps, sns).rows| && Ran(w, steps, sns).rows[r] == w.rows[r]
  {
    if steps != [] {
      var init, step := steps[..|steps| - 1], steps[|steps| - 1];
      ClosedUntilBoot(w, init, sns, r);
      if step.LandTick? {
        var v := Ran(w, init, sns);
        if Ascending(Pending(v.table), step.pending) {
          AscendingIn(v.table, step.pending);
          CloseAllKeepsClosed(v.rows, EventsOf(v.table, step.pending, step.env, step.now), sns, step.now, r);
        }
      }
    }
  }

  /** The tick handles the entry, and it fails to land. */
  ghost predicate FailsIn(w: World, tick: Step, id: int) {
    && tick.LandTick? && Ascending(Pending(w.table), tick.pending) && id in tick.pending && id in w.table
    && var h := Handle(id, w.table[id], tick.env(id, 0), tick.env(id, 1), tick.now);
       Met(HasFailed, id, w.table[id], h.entry, h.events)
  }

  lemma FailedIsClosing(w: World, tick: Step, id: int)
    requires FailsIn(w, tick, id)
    ensures Closing(Deciding(tick.env(id, 0), tick.env(id, 1))) == Some((P.LandingFailed, None))
  {
    HandleReports(id, w.table[id], tick.env(id, 0), tick.env(id, 1), tick.now);
  }

  function NewestId(rows: Rows, sn: int): nat
    requires OpenIds(rows, sn) != []
  {
    OpenIds(rows, sn)[|OpenIds(rows, sn)| - 1]
  }

  lemma NewestIsClosed(rows: Rows, sn: int, status: P.Status, filename: Option<string>, now: int)
    requires OpenIds(rows, sn) != []
    ensures var r, closed := NewestId(rows, sn), CloseNewest(rows, sn, status, filename, now);
      && r < |rows| == |closed| && rows[r].sn == sn
      && closed[r] == rows[r].(finalStatus := status, finishedAt := Some(now), retries := 0,
                               filename := filename.GetOr(rows[r].filename))
  {
    OpenIdsAre(rows, sn);
  }

  /** What the failed landing of an entry leaves in the newest open row of its task. */
  lemma FailedTickCloses(w: World, tick: Step, sns: int -> int, id: int)
    requires Injective(sns) && FailsIn(w, tick, id) && OpenIds(w.rows, sns(id)) != []
    ensures var r, u := NewestId(w.rows, sns(id)), Stepped(w, tick, sns);
      && r < |w.rows| && |u.rows| == |w.rows|
      && u.rows[r] == w.rows[r].(finalStatus := P.LandingFailed, finishedAt := Some(tick.now), retries := 0)
  {
    FailedIsClosing(w, tick, id);
    AscendingIn(w.table, tick.pending);
    NewestIsClosed(w.rows, sns(id), P.LandingFailed, None, tick.now);
    TickCloses(w.rows, w.table, tick.pending, tick.env, tick.now, sns, id);
  }

  lemma BootHides(rows: Rows, now: int, r: nat)
    requires r < |rows| && rows[r].finalStatus == P.LandingFailed && rows[r].finishedAt.Some?
    ensures var after := P.NormalizeAll(P.InterruptAll(rows, now));
      && |after| == |rows| && after[r] == rows[r].(finalStatus := P.Interrupted)
      && forall cutoff: int :: !R.ListedRecent(after[r], cutoff)
  {
  }

  /** A failed landing is in the recent list until the next boot, whatever happens before that, and the
      boot hides it for good: '下載失敗' has become '中斷'. */
  lemma FailureShownUntilBoot(w: World, tick: Step, sns: int -> int, id: int, steps: seq<Step>, bootAt: int)
    requires Injective(sns) && FailsIn(w, tick, id) && OpenIds(w.rows, sns(id)) != [] && NoBoot(steps)
    ensures var r, v := NewestId(w.rows, sns(id)), Ran(Stepped(w, tick, sns), steps, sns);
      var b := Stepped(v, Boot(bootAt), sns);
      && r < |v.rows| && |b.rows| == |v.rows|
      && v.rows[r].finalStatus == P.LandingFailed && b.rows[r] == v.rows[r].(finalStatus := P.Interrupted)
      && (forall cutoff: int :: R.ListedRecent(v.rows[r], cutoff) <==> cutoff <= tick.now)
      && (forall cutoff: int :: !R.ListedRecent(b.rows[r], cutoff))
  {
    FailedTickCloses(w, tick, sns, id);
    var r := NewestId(w.rows, sns(id));
    ClosedUntilBoot(Stepped(w, tick, sns), steps, sns, r);
    BootHides(Ran(Stepped(w, tick, sns), steps, sns).rows, bootAt, r);
  }

  // ------------------------------------------------------------------ leftovers of a reset

  /** While an entry waits for no landing and is not dispatched, its open rows stay until a boot. */
  lemma {:induction false} UnpendingKeepsOpenRows(w: World, steps: seq<Step>, sns: int -> int, id: int)
    requires Injective(sns) && NoBoot(steps) && id !in Pending(w.table)
    requires forall k :: 0 <= k < |steps| ==> !(steps[k].Dispatch? && steps[k].id == id)
    ensures id !in Pending(Ran(w, steps, sns).table)
    ensures OpenIds(Ran(w, steps, sns).rows, sns(id)) == OpenIds(w.rows, sns(id))
  {
    if steps != [] {
      var init, step := steps[..|steps| - 1], steps[|steps| - 1];
      UnpendingKeepsOpenRows(w, init, sns, id);
      var v := Ran(w, init, sns);
      OpenIdsStep(v, step, sns, id);
      StaysUnpending(v, step, sns, id);
      if step.LandTick? && Ascending(Pending(v.table), step.pending) {
        AscendingIn(v.table, step.pending);
      }
    }
  }

  lemma StaysUnpending(w: World, step: Step, sns: int -> int, id: int)
    requires id !in Pending(w.table) && !(step.Dispatch? && step.id == id)
    ensures id !in Pending(Stepped(w, step, sns).table)
  {
    if step.LandTick? && Ascending(Pending(w.table), step.pending) {
      AscendingIn(w.table, step.pending);
    }
  }

  /** A transfer that is not found leaves its history row open "to finish normally" with the next
      dispatch. That dispatch opens a row of its own, and its landing closes that one: the old row stays
      open through everything but a boot, as long as the entry is not dispatched again. */
  lemma ResetLeavesRowOpen(w: World, lost: Step, again: Step, landed: Step, steps: seq<Step>, sns: int -> int, id: int)
    requires Injective(sns) && NoBoot(steps) && id in w.table
    requires lost.LandTick? && Ascending(Pending(w.table), lost.pending) && id in lost.pending
    requires Decide(lost.env(id, 0)).Resets?
    requires again.Dispatch? && again.id == id
    requires var u := Stepped(Stepped(w, lost, sns), again, sns);
      landed.LandTick? && Ascending(Pending(u.table), landed.pending) && id in landed.pending
      && Deciding(landed.env(id, 0), landed.env(id, 1)).Lands?
    requires forall k :: 0 <= k < |steps| ==> !(steps[k].Dispatch? && steps[k].id == id)
    ensures var v := Ran(Stepped(Stepped(Stepped(w, lost, sns), again, sns), landed, sns), steps, sns);
      && OpenIds(v.rows, sns(id)) == OpenIds(w.rows, sns(id))
      && |w.rows| < |v.rows| && v.rows[|w.rows|].finalStatus == P.Complete
  {
    var w1 := Stepped(w, lost, sns);
    AscendingIn(w.table, lost.pending);
    OpenIdsStep(w, lost, sns, id);
    TickCloses(w.rows, w.table, lost.pending, lost.env, lost.now, sns, id);
    var w2 := Stepped(w1, again, sns);
    assert id in w1.table;
    OpenIdsStep(w1, again, sns, id);
    var w3 := Stepped(w2, landed, sns);
    OpenIdsStep(w2, landed, sns, id);
    AscendingIn(w2.table, landed.pending);
    LandedIsUnpending(w2, landed, sns, id);
    UnpendingKeepsOpenRows(w3, steps, sns, id);
    LandingClosesNewest(w2, landed, steps, sns, id);
  }

  /** The row of the second dispatch is the one that is closed, as complete. */
  lemma LandingClosesNewest(w: World, landed: Step, steps: seq<Step>, sns: int -> int, id: int)
    requires Injective(sns) && NoBoot(steps) && id in w.table && OpenIds(w.rows, sns(id)) != []
    requires landed.LandTick? && Ascending(Pending(w.table), landed.pending) && id in landed.pending
    requires Deciding(landed.env(id, 0), landed.env(id, 1)).Lands?
    ensures var r, v := NewestId(w.rows, sns(id)), Ran(Stepped(w, landed, sns), steps, sns);
      && r < |v.rows| && v.rows[r].finalStatus == P.Complete && v.rows[r].finishedAt == Some(landed.now)
      && v.rows[r].filename == Deciding(landed.env(id, 0), landed.env(id, 1)).path
  {
    var path := Deciding(landed.env(id, 0), landed.env(id, 1)).path;
    AscendingIn(w.table, landed.pending);
    NewestIsClosed(w.rows, sns(id), P.Complete, Some(path), landed.now);
    TickCloses(w.rows, w.table, landed.pending, landed.env, landed.now, sns, id);
    ClosedUntilBoot(Stepped(w, landed, sns), steps, sns, NewestId(w.rows, sns(id)));
  }

  lemma LandedIsUnpending(w: World, tick: Step, sns: int -> int, id: int)
    requires tick.LandTick? && Ascending(Pending(w.table), tick.pending) && id in tick.pending && id in w.table
    requires Deciding(tick.env(id, 0), tick.env(id, 1)).Lands?
    ensures id !in Pending(Stepped(w, tick, sns).table)
  {
    AscendingIn(w.table, tick.pending);
    AttemptLeaves(w.table[id], tick.env(id, 0), tick.now);
    if Decide(tick.env(id, 0)).Fails? {
      AttemptLeaves(EntryAfter(w.table[id], tick.env(id, 0), tick.now), tick.env(id, 1), tick.now);
    }
  }

  // ------------------------------------------------------------------ they happen

  const EMPTY_WORLD: World := World(map[], [])

  function Answer(transfer: Reply<Transfer>, name: Reply<string>): Attempt {
    Attempt(transfer, Ok([RemoteFile(0, false)]), Raises(Unexpected), n => name, Ok(false), Raises(Unexpected))
  }

  function Always(a: Attempt): Answers { (id, n) => a }

  const SENT: seq<Step> := [Step.Other(InsertIfNew(1, 0)), Dispatch(1, Some(9), 42, "title", "feed", "1", 1)]

  lemma Sent(sns: int -> int)
    ensures var w := Ran(EMPTY_WORLD, SENT, sns);
      && w.rows == [OpenRow(sns(1), "title", "feed", "1")] && OpenIds(w.rows, sns(1)) == [0]
      && w.table == map[1 := Entry(0, Some(9), Some(1), Some(42), Some(InQueue), None, None)]
      && Ascending(Pending(w.table), [1])
  {
    assert SENT[..1] == [Step.Other(InsertIfNew(1, 0))] && SENT[..1][..0] == [];
    assert Ran(EMPTY_WORLD, [], sns) == EMPTY_WORLD;
    var inserted := Ran(EMPTY_WORLD, SENT[..1], sns);
    assert inserted == Stepped(EMPTY_WORLD, Step.Other(InsertIfNew(1, 0)), sns);
    assert inserted.table == map[1 := Entry(0, None, None, None, None, None, None)];
    var w := Ran(EMPTY_WORLD, SENT, sns);
    assert w == Stepped(inserted, SENT[1], sns);
    var row := OpenRow(sns(1), "title", "feed", "1");
    assert [row][..0] == [] && OpenIds([], sns(1)) == [];
    assert OpenIds([row], sns(1)) == [] + [0];
    assert Pending(w.table) == {1};
  }

  /** Put.io reports an error; the transfer is not found; the transfer lands. */
  const FAILED: Step := Step.LandTick([1], Always(Answer(Ok(Transfer(Error, None, None)), Raises(Unexpected))), 5)

  const LOST: Step := Step.LandTick([1], Always(Answer(Raises(NotFound), Raises(Unexpected))), 2)

  const LANDED: Step := Step.LandTick([1], Always(Answer(Ok(Transfer(Completed, Some(3), None)), Ok("episode"))), 4)

  const AGAIN: Step := Dispatch(1, Some(9), 43, "title", "feed", "1", 3)

  lemma ErrorHandled(id: int, e: Entry, first: Attempt, second: Attempt, now: int)
    requires PendingLanding(e) && first.transfer.Ok? && first.transfer.value.status == Error
    ensures var h := Handle(id, e, first, second, now); Met(HasFailed, id, e, h.entry, h.events)
  {
    var h := Handle(id, e, first, second, now);
    assert Decide(first) == RemoteError;
    assert h.entry == e.(status := Some(Error)) && h.events == FailureEvents(id);
    FailureReports(id);
  }

  /** A transfer that Put.io reports as an error fails the tick. */
  lemma ErrorFails(w: World, tick: Step, id: int)
    requires tick.LandTick? && Ascending(Pending(w.table), tick.pending) && id in tick.pending && id in w.table
    requires tick.env(id, 0).transfer.Ok? && tick.env(id, 0).transfer.value.status == Error
    ensures FailsIn(w, tick, id)
  {
    AscendingIn(w.table, tick.pending);
    ErrorHandled(id, w.table[id], tick.env(id, 0), tick.env(id, 1), tick.now);
  }

  /** An entry is inserted, dispatched and fails at 5: its row is listed until the boot and not after. */
  lemma FailureRun(sns: int -> int, bootAt: int)
    requires Injective(sns)
    ensures var v := Stepped(Ran(EMPTY_WORLD, SENT, sns), FAILED, sns);
      var b := Stepped(v, Boot(bootAt), sns);
      && |v.rows| >= 1 && |b.rows| >= 1 && R.ListedRecent(v.rows[0], 5) && !R.ListedRecent(b.rows[0], 5)
  {
    Sent(sns);
    ErrorFails(Ran(EMPTY_WORLD, SENT, sns), FAILED, 1);
    FailureShownUntilBoot(Ran(EMPTY_WORLD, SENT, sns), FAILED, sns, 1, [], bootAt);
  }

  lemma PendingAgain(sns: int -> int)
    ensures var u := Stepped(Stepped(Ran(EMPTY_WORLD, SENT, sns), LOST, sns), AGAIN, sns);
      Ascending(Pending(u.table), [1])
  {
    Sent(sns);
    var w := Ran(EMPTY_WORLD, SENT, sns);
    var reset := Stepped(w, LOST, sns);
    assert reset.table == map[1 := Entry(0, Some(9), None, None, None, None, None)];
    var u := Stepped(reset, AGAIN, sns);
    assert u.table == map[1 := Entry(0, Some(9), Some(3), Some(43), Some(InQueue), None, None)];
    assert Pending(u.table) == {1};
  }

  /** An entry is dispatched, its transfer is lost, it is dispatched again and lands: the row of the
      second dispatch is complete and that of the first is still open. */
  lemma LeftoverRun(sns: int -> int)
    requires Injective(sns)
    ensures var u := Stepped(Stepped(Ran(EMPTY_WORLD, SENT, sns), LOST, sns), AGAIN, sns);
      var v := Stepped(u, LANDED, sns);
      OpenIds(v.rows, sns(1)) == [0] && |v.rows| > 1 && v.rows[1].finalStatus == P.Complete
  {
    Sent(sns);
    PendingAgain(sns);
    ResetLeavesRowOpen(Ran(EMPTY_WORLD, SENT, sns), LOST, AGAIN, LANDED, [], sns, 1);
  }

  /** The next boot calls it interrupted, and so with any row still open. */
  lemma BootInterrupts(w: World, bootAt: int, sns: int -> int, r: nat)
    requires r < |w.rows| && w.rows[r].Open()
    ensures var b := Stepped(w, Boot(bootAt), sns);
      |b.rows| == |w.rows| && b.rows[r].finalStatus == P.Interrupted && b.rows[r].finishedAt == Some(bootAt)
  {
  }
}
