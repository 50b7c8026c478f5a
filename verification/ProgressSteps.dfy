/** `ProgressBus` under free interleaving: every section under the lock and every database
    call is its own step, taken by any number of threads on any sns in any order. */
module ProgressSteps {
  import opened ProgressModel

  /** Where a thread stands between two steps of `start` or `finish`. */
  datatype Pc =
    | Idle
    | Inserting(sn: int)             // start: the entry is in, record_start not yet called
    | Storing(sn: int, id: nat)      // start: the row exists, _row_ids does not know it yet
    | Closing(id: nat, status: Status)  // finish: popped the id, record_finish not yet called

  datatype Slot = Slot(status: Status, finished: bool)

  datatype Row = Row(sn: int, status: Status)

  datatype Close = Close(id: nat, status: Status)

  /** `threads` is one position per thread; `closes` is the log of all `record_finish` calls. */
  datatype Sys = Sys(
    entries: map<int, Slot>,
    rowIds: map<int, nat>,
    rows: seq<Row>,
    threads: seq<Pc>,
    closes: seq<Close>)
  {
    predicate Is(t: nat, pc: Pc) { t < |threads| && threads[t] == pc }

    predicate Active(sn: int) { sn in entries && !entries[sn].finished }
  }

  datatype Step =
    | StartLock(t: nat, sn: int, status: Status)
    | InsertRow(t: nat)
    | StoreId(t: nat)
    | FinishLock(t: nat, sn: int)
    | CloseRow(t: nat)
    | SetStatus(sn: int, status: Status)  // update_status, mark_retry, cancel
    | ForceFinish(sn: int, status: Status)
    | Prune(sn: int)
    | Crash

  /** The state after a step; a step that is not enabled changes nothing. */
  function Take(s: Sys, step: Step): Sys {
    match step
    case StartLock(t, sn, status) =>
      if !s.Is(t, Idle) then s
      else if sn in s.rowIds || s.Active(sn) then
        if sn in s.entries then s.(entries := s.entries[sn := s.entries[sn].(status := status)]) else s
      else s.(entries := s.entries[sn := Slot(status, false)], threads := s.threads[t := Inserting(sn)])
    case InsertRow(t) =>
      if t < |s.threads| && s.threads[t].Inserting? then
        s.(rows := s.rows + [Row(s.threads[t].sn, InProgress)],
           threads := s.threads[t := Storing(s.threads[t].sn, |s.rows|)])
      else s
    case StoreId(t) =>
      if t < |s.threads| && s.threads[t].Storing? then
        s.(rowIds := s.rowIds[s.threads[t].sn := s.threads[t].id], threads := s.threads[t := Idle])
      else s
    case FinishLock(t, sn) =>
      if !s.Is(t, Idle) || !s.Active(sn) then s
      else
        var status := Coerced(s.entries[sn].status);
        s.(entries := s.entries[sn := Slot(status, true)],
           rowIds := s.rowIds - {sn},
           threads := if sn in s.rowIds then s.threads[t := Closing(s.rowIds[sn], status)] else s.threads)
    case CloseRow(t) =>
      if t < |s.threads| && s.threads[t].Closing? then
        var id, status := s.threads[t].id, s.threads[t].status;
        s.(rows := if id < |s.rows| then s.rows[id := s.rows[id].(status := status)] else s.rows,
           threads := s.threads[t := Idle],
           closes := s.closes + [Close(id, status)])
      else s
    case SetStatus(sn, status) =>
      if sn in s.entries then s.(entries := s.entries[sn := s.entries[sn].(status := status)]) else s
    case ForceFinish(sn, status) =>
      if sn in s.entries && s.entries[sn].finished then s
      else s.(entries := s.entries[sn := Slot(status, true)])
    case Prune(sn) =>
      if sn in s.entries && s.entries[sn].finished then s.(entries := s.entries - {sn}) else s
    case Crash =>
      s.(entries := map[], rowIds := map[], threads := seq(|s.threads|, i => Idle),
         rows := seq(|s.rows|, i requires 0 <= i < |s.rows| => Interrupted(s.rows[i])))
  }

  /** `mark_interrupted_on_boot` on one row. */
  function Interrupted(row: Row): Row {
    if row.status == InProgress then row.(status := Status.Interrupted) else row
  }

  function Run(s: Sys, steps: seq<Step>): Sys {
    if steps == [] then s else Take(Run(s, steps[..|steps| - 1]), steps[|steps| - 1])
  }

  /** A fresh system with `n` threads. */
  function Boot(n: nat): Sys { Sys(map[], map[], [], seq(n, i => Idle), []) }

  // ------------------------------------------------------------------ at most one close

  predicate OpenRow(rows: seq<Row>, id: nat) {
    id < |rows| && rows[id].status == InProgress
  }

  /** The row id a thread carries between two of its steps. */
  predicate Holds(pc: Pc, id: nat) {
    (pc.Storing? || pc.Closing?) && pc.id == id
  }

  /** Row ids in flight point at open rows, and no two threads carry the same one. */
  ghost predicate ThreadsLinear(threads: seq<Pc>, rows: seq<Row>) {
    && (forall t, id: nat :: 0 <= t < |threads| && Holds(threads[t], id) ==>
          && OpenRow(rows, id)
          && (threads[t].Storing? ==> rows[id].sn == threads[t].sn)
          && (threads[t].Closing? ==> threads[t].status in ALREADY_TERMINAL))
    && (forall t, u, id: nat ::
          0 <= t < u < |threads| && Holds(threads[t], id) ==> !Holds(threads[u], id))
  }

  /** Stored ids point at open rows of their sn that no thread carries. */
  ghost predicate MapLinear(threads: seq<Pc>, rows: seq<Row>, rowIds: map<int, nat>) {
    && (forall sn :: sn in rowIds ==> OpenRow(rows, rowIds[sn]) && rows[rowIds[sn]].sn == sn)
    && (forall sn, t :: sn in rowIds && 0 <= t < |threads| ==> !Holds(threads[t], rowIds[sn]))
  }

  /** A close leaves its row with the status it wrote, and no row is closed twice. */
  ghost predicate LogSound(rows: seq<Row>, closes: seq<Close>) {
    && (forall k :: 0 <= k < |closes| ==>
          closes[k].id < |rows| && closes[k].status in ALREADY_TERMINAL &&
          rows[closes[k].id].status == closes[k].status)
    && (forall j, k :: 0 <= j < k < |closes| ==> closes[j].id != closes[k].id)
  }

  ghost predicate IdsLinear(s: Sys) {
    ThreadsLinear(s.threads, s.rows) && MapLinear(s.threads, s.rows, s.rowIds)
  }

  lemma IdsLinearStep(s: Sys, step: Step)
    requires IdsLinear(s)
    ensures IdsLinear(Take(s, step))
  {
    match step
    case InsertRow(t) => InsertKeepsLinear(s, t);
    case CloseRow(t) => CloseKeepsLinear(s, t);
    case FinishLock(t, sn) => FinishKeepsLinear(s, t, sn);
    case StoreId(t) => StoreKeepsLinear(s, t);
    case _ =>
  }

  /** After an insert only the inserting thread carries the new row. */
  lemma InsertHolds(s: Sys, t: nat, v: nat, id: nat)
    requires IdsLinear(s) && t < |s.threads| && s.threads[t].Inserting? && v < |s.threads|
    ensures var u := Take(s, InsertRow(t));
      Holds(u.threads[v], id) ==> if v == t then id == |s.rows| else Holds(s.threads[v], id) && OpenRow(s.rows, id)
  {
    assert v != t && Holds(s.threads[v], id) ==> OpenRow(s.rows, id);
  }

  lemma InsertKeepsLinear(s: Sys, t: nat)
    requires IdsLinear(s)
    ensures IdsLinear(Take(s, InsertRow(t)))
  {
    if t < |s.threads| && s.threads[t].Inserting? {
      var u := Take(s, InsertRow(t));
      forall v, id: nat | 0 <= v < |u.threads| && Holds(u.threads[v], id)
        ensures OpenRow(u.rows, id) && (v != t ==> id < |s.rows| && u.rows[id] == s.rows[id])
      {
        InsertHolds(s, t, v, id);
      }
      forall v, w, id: nat | 0 <= v < w < |u.threads| && Holds(u.threads[v], id) ensures !Holds(u.threads[w], id) {
        InsertHolds(s, t, v, id);
        InsertHolds(s, t, w, id);
      }
    }
  }

  lemma FinishKeepsLinear(s: Sys, t: nat, sn: int)
    requires IdsLinear(s)
    ensures IdsLinear(Take(s, FinishLock(t, sn)))
  {
  }

  lemma StoreKeepsLinear(s: Sys, t: nat)
    requires IdsLinear(s)
    ensures IdsLinear(Take(s, StoreId(t)))
  {
    if t < |s.threads| && s.threads[t].Storing? {
      assert Holds(s.threads[t], s.threads[t].id);
    }
  }

  /** After a close no thread carries the closed row, and the others carry what they did. */
  lemma CloseHolds(s: Sys, t: nat, v: nat, id: nat)
    requires IdsLinear(s) && t < |s.threads| && s.threads[t].Closing? && v < |s.threads|
    ensures OpenRow(s.rows, s.threads[t].id)
    ensures Holds(Take(s, CloseRow(t)).threads[v], id) ==>
      v != t && Holds(s.threads[v], id) && id != s.threads[t].id && OpenRow(s.rows, id)
  {
    assert Holds(s.threads[t], s.threads[t].id);
    assert v != t && Holds(s.threads[v], id) ==> OpenRow(s.rows, id);
  }

  lemma CloseKeepsLinear(s: Sys, t: nat)
    requires IdsLinear(s)
    ensures IdsLinear(Take(s, CloseRow(t)))
  {
    if t < |s.threads| && s.threads[t].Closing? {
      var closed, u := s.threads[t].id, Take(s, CloseRow(t));
      assert Holds(s.threads[t], closed) && OpenRow(s.rows, closed);
      forall v, id: nat | 0 <= v < |u.threads| && Holds(u.threads[v], id)
        ensures OpenRow(u.rows, id) && u.rows[id] == s.rows[id] && u.threads[v] == s.threads[v]
      {
        CloseHolds(s, t, v, id);
      }
      forall v, w, id: nat | 0 <= v < w < |u.threads| && Holds(u.threads[v], id) ensures !Holds(u.threads[w], id) {
        CloseHolds(s, t, v, id);
        CloseHolds(s, t, w, id);
      }
    }
  }

  lemma LogSoundStep(s: Sys, step: Step)
    requires IdsLinear(s) && LogSound(s.rows, s.closes)
    ensures LogSound(Take(s, step).rows, Take(s, step).closes)
  {
    if step.CloseRow? && step.t < |s.threads| && s.threads[step.t].Closing? {
      var id := s.threads[step.t].id;
      assert Holds(s.threads[step.t], id);
      assert OpenRow(s.rows, id);
      assert forall k :: 0 <= k < |s.closes| ==> s.closes[k].id != id;
    } else if step.Crash? {
      assert forall k :: 0 <= k < |s.closes| ==> s.rows[s.closes[k].id].status != InProgress;
    }
  }

  /** Over every interleaving, crashes included: each row is passed to `record_finish` at most
      once, with a terminal status, and that status is what its row reads ever after. */
  lemma {:induction false} ClosedAtMostOnce(n: nat, steps: seq<Step>)
    ensures IdsLinear(Run(Boot(n), steps))
    ensures LogSound(Run(Boot(n), steps).rows, Run(Boot(n), steps).closes)
  {
    if steps != [] {
      var init := steps[..|steps| - 1];
      ClosedAtMostOnce(n, init);
      IdsLinearStep(Run(Boot(n), init), steps[|steps| - 1]);
      LogSoundStep(Run(Boot(n), init), steps[|steps| - 1]);
    }
  }

  // ------------------------------------------------------------------ when rows are left open

  /** A thread is inside `start` for `sn`, between creating the entry and storing the row id. */
  predicate InWindow(pc: Pc, sn: int) {
    (pc.Inserting? || pc.Storing?) && pc.sn == sn
  }

  predicate WindowOpen(threads: seq<Pc>, sn: int) {
    exists t :: 0 <= t < |threads| && InWindow(threads[t], sn)
  }

  /** Two threads are inside `start` for `sn`. */
  predicate TwoWindows(threads: seq<Pc>, sn: int) {
    exists t, u :: 0 <= t < u < |threads| && InWindow(threads[t], sn) && InWindow(threads[u], sn)
  }

  /** An open row of `sn` that no thread and no map entry knows any more. */
  ghost predicate Lost(s: Sys, sn: int, id: nat) {
    && OpenRow(s.rows, id) && s.rows[id].sn == sn
    && !(sn in s.rowIds && s.rowIds[sn] == id)
    && forall t :: 0 <= t < |s.threads| ==> !Holds(s.threads[t], id)
  }

  /** Some row of `sn` is, or will be, open with nobody left to close it. */
  ghost predicate Doomed(s: Sys, sn: int) {
    || (!s.Active(sn) && (sn in s.rowIds || WindowOpen(s.threads, sn)))
    || (sn in s.rowIds && WindowOpen(s.threads, sn))
    || TwoWindows(s.threads, sn)
    || exists id :: Lost(s, sn, id)
  }

  /** The entry is ended while unfinished and its row id is not stored, or by `force_finish`. */
  predicate EndsTooEarly(s: Sys, step: Step) {
    || (step.FinishLock? && s.Is(step.t, Idle) && s.Active(step.sn) && step.sn !in s.rowIds)
    || (step.ForceFinish? && s.Active(step.sn))
  }

  predicate NeverTooEarly(s: Sys, steps: seq<Step>) {
    steps == [] ||
    (NeverTooEarly(s, steps[..|steps| - 1]) && !EndsTooEarly(Run(s, steps[..|steps| - 1]), steps[|steps| - 1]))
  }

  ghost predicate ActiveClaimed(s: Sys) {
    forall sn :: s.Active(sn) ==> sn in s.rowIds || WindowOpen(s.threads, sn)
  }

  ghost predicate NoneDoomed(s: Sys) {
    forall sn :: !Doomed(s, sn)
  }

  /** A window stays open until its thread stores the id. */
  lemma WindowKept(s: Sys, step: Step, sn: int, w: nat)
    requires !step.Crash? && w < |s.threads| && InWindow(s.threads[w], sn)
    ensures var u := Take(s, step);
      && |u.threads| == |s.threads|
      && (InWindow(u.threads[w], sn) || (step == StoreId(w) && sn in u.rowIds && u.entries == s.entries))
  {
  }

  lemma ActiveClaimedStep(s: Sys, step: Step)
    requires ActiveClaimed(s)
    ensures ActiveClaimed(Take(s, step))
  {
    var u := Take(s, step);
    forall sn | u.Active(sn) ensures sn in u.rowIds || WindowOpen(u.threads, sn) {
      if !s.Active(sn) {
        assert step.StartLock? && InWindow(u.threads[step.t], sn);
      } else if sn !in s.rowIds {
        var w :| 0 <= w < |s.threads| && InWindow(s.threads[w], sn);
        WindowKept(s, step, sn, w);
      }
    }
  }

  lemma LostStays(s: Sys, step: Step, sn: int, id: nat)
    requires IdsLinear(s) && !step.Crash? && Lost(s, sn, id)
    ensures Lost(Take(s, step), sn, id)
  {
    if (step.StoreId? || step.CloseRow?) && step.t < |s.threads| && s.threads[step.t] != Idle {
      assert !Holds(s.threads[step.t], id);
    }
  }

  lemma DoomedStays(s: Sys, step: Step, sn: int)
    requires IdsLinear(s) && !step.Crash? && Doomed(s, sn)
    ensures Doomed(Take(s, step), sn)
  {
    if id :| Lost(s, sn, id) {
      LostStays(s, step, sn, id);
    } else if TwoWindows(s.threads, sn) {
      var t, u :| 0 <= t < u < |s.threads| && InWindow(s.threads[t], sn) && InWindow(s.threads[u], sn);
      WindowKept(s, step, sn, t);
      WindowKept(s, step, sn, u);
    } else if WindowOpen(s.threads, sn) {
      var w :| 0 <= w < |s.threads| && InWindow(s.threads[w], sn);
      WindowKept(s, step, sn, w);
      if sn in s.rowIds && step == StoreId(w) && s.threads[w].Storing? {
        assert Holds(s.threads[w], s.threads[w].id);
        assert Lost(Take(s, step), sn, s.rowIds[sn]);
      } else if step.StartLock? && step.sn == sn && s.Is(step.t, Idle) && sn !in s.rowIds {
        assert InWindow(Take(s, step).threads[step.t], sn);
      }
    }
  }

  /** A window is there before the step too, unless the step is the `start` that opens it. */
  lemma WindowBefore(s: Sys, step: Step, sn: int, w: nat)
    requires !step.Crash? && w < |Take(s, step).threads| && InWindow(Take(s, step).threads[w], sn)
    ensures |Take(s, step).threads| == |s.threads|
    ensures InWindow(s.threads[w], sn) ||
      (step.StartLock? && step.t == w && step.sn == sn && !s.Active(sn) && sn !in s.rowIds)
  {
  }

  lemma LostBefore(s: Sys, step: Step, sn: int, id: nat)
    requires IdsLinear(s) && !step.Crash? && Lost(Take(s, step), sn, id)
    ensures Lost(s, sn, id) || (sn in s.rowIds && WindowOpen(s.threads, sn)) || EndsTooEarly(s, step)
  {
    var u := Take(s, step);
    if t :| 0 <= t < |s.threads| && Holds(s.threads[t], id) {
      assert !Holds(u.threads[t], id);
    }
    if id == |s.rows| {
      assert !Holds(u.threads[step.t], id);
    } else if sn in s.rowIds && s.rowIds[sn] == id {
      assert step.StoreId? ==> InWindow(s.threads[step.t], sn);
      assert step.FinishLock? ==> !Holds(u.threads[step.t], id);
    }
  }

  lemma NotDoomedStep(s: Sys, step: Step, sn: int)
    requires IdsLinear(s) && !Doomed(s, sn) && !step.Crash? && !EndsTooEarly(s, step)
    ensures !Doomed(Take(s, step), sn)
  {
    var u := Take(s, step);
    if id :| Lost(u, sn, id) {
      LostBefore(s, step, sn, id);
    }
    if WindowOpen(u.threads, sn) {
      var w :| 0 <= w < |u.threads| && InWindow(u.threads[w], sn);
      WindowBefore(s, step, sn, w);
    }
    if TwoWindows(u.threads, sn) {
      var v, w :| 0 <= v < w < |u.threads| && InWindow(u.threads[v], sn) && InWindow(u.threads[w], sn);
      WindowBefore(s, step, sn, v);
      WindowBefore(s, step, sn, w);
    }
  }

  lemma NoneDoomedStep(s: Sys, step: Step)
    requires IdsLinear(s) && ActiveClaimed(s) && NoneDoomed(s) && !step.Crash?
    ensures NoneDoomed(Take(s, step)) <==> !EndsTooEarly(s, step)
  {
    if EndsTooEarly(s, step) {
      assert Doomed(Take(s, step), step.sn);
    } else {
      forall sn ensures !Doomed(Take(s, step), sn) {
        NotDoomedStep(s, step, sn);
      }
    }
  }

  /** Where a process begins: nothing in memory, and no row open, however many rows there are. */
  ghost predicate Rested(s: Sys) {
    && s.entries == map[] && s.rowIds == map[]
    && (forall t :: 0 <= t < |s.threads| ==> s.threads[t] == Idle)
    && (forall id :: 0 <= id < |s.rows| ==> s.rows[id].status != InProgress)
  }

  /** Every crash with its boot step ends in such a state, and the first boot is one. */
  lemma CrashRests(s: Sys, n: nat)
    ensures Rested(Take(s, Crash)) && Rested(Boot(n))
  {
  }

  lemma {:induction false} LinearRun(s: Sys, steps: seq<Step>)
    requires IdsLinear(s)
    ensures IdsLinear(Run(s, steps)) && |Run(s, steps).threads| == |s.threads|
  {
    if steps != [] {
      LinearRun(s, steps[..|steps| - 1]);
      IdsLinearStep(Run(s, steps[..|steps| - 1]), steps[|steps| - 1]);
    }
  }

  /** Between two crashes: some row is doomed exactly when some task was ended inside the window of
      its own `start`, or by `force_finish`. */
  lemma {:induction false} DoomedIffEndedTooEarly(s: Sys, steps: seq<Step>)
    requires Rested(s) && Crash !in steps
    ensures NoneDoomed(Run(s, steps)) <==> NeverTooEarly(s, steps)
    ensures ActiveClaimed(Run(s, steps))
  {
    if steps != [] {
      var init, step := steps[..|steps| - 1], steps[|steps| - 1];
      DoomedIffEndedTooEarly(s, init);
      LinearRun(s, init);
      ActiveClaimedStep(Run(s, init), step);
      assert step in steps;
      if NeverTooEarly(s, init) {
        NoneDoomedStep(Run(s, init), step);
      } else {
        var sn :| Doomed(Run(s, init), sn);
        DoomedStays(Run(s, init), step, sn);
      }
    }
  }

  predicate AllIdle(s: Sys) {
    forall t :: 0 <= t < |s.threads| ==> s.threads[t] == Idle
  }

  /** An open row of `sn` that no call can close: lost, or held by an entry that is not unfinished. */
  ghost predicate Abandoned(s: Sys, sn: int, id: nat) {
    && OpenRow(s.rows, id) && s.rows[id].sn == sn
    && (Lost(s, sn, id) || (sn in s.rowIds && s.rowIds[sn] == id && !s.Active(sn)))
  }

  /** Once the threads have come to rest, what is doomed is such a row, and nothing else is. */
  lemma DoomedIsAbandoned(s: Sys, sn: int)
    requires IdsLinear(s) && AllIdle(s)
    ensures Doomed(s, sn) <==> exists id :: Abandoned(s, sn, id)
  {
    if Doomed(s, sn) {
      if id :| Lost(s, sn, id) {
        assert Abandoned(s, sn, id);
      } else {
        assert sn in s.rowIds && Abandoned(s, sn, s.rowIds[sn]);
      }
    }
    if id :| Abandoned(s, sn, id) {
      assert Lost(s, sn, id) || sn in s.rowIds;
    }
  }

  lemma AbandonedStays(s: Sys, step: Step, sn: int, id: nat)
    requires IdsLinear(s) && !step.Crash? && Abandoned(s, sn, id)
    ensures Abandoned(Take(s, step), sn, id)
  {
    if Lost(s, sn, id) {
      LostStays(s, step, sn, id);
    } else {
      assert forall t :: 0 <= t < |s.threads| ==> !Holds(s.threads[t], id);
      if (step.StoreId? || step.CloseRow?) && step.t < |s.threads| && s.threads[step.t] != Idle {
        assert !Holds(s.threads[step.t], id);
      }
    }
  }

  /** An abandoned row is open after everything any thread does, until the process crashes. */
  lemma {:induction false} AbandonedForGood(s: Sys, steps: seq<Step>, sn: int, id: nat)
    requires IdsLinear(s) && Crash !in steps && Abandoned(s, sn, id)
    ensures Abandoned(Run(s, steps), sn, id)
  {
    if steps != [] {
      var init, step := steps[..|steps| - 1], steps[|steps| - 1];
      AbandonedForGood(s, init, sn, id);
      LinearRun(s, init);
      assert step in steps;
      AbandonedStays(Run(s, init), step, sn, id);
    }
  }

  ghost predicate LeavesRow(s: Sys) {
    exists sn, id :: Abandoned(s, sn, id)
  }

  lemma LeavesRowIffDoomed(s: Sys)
    requires IdsLinear(s) && AllIdle(s)
    ensures LeavesRow(s) <==> !NoneDoomed(s)
  {
    if LeavesRow(s) {
      var sn, id :| Abandoned(s, sn, id);
      DoomedIsAbandoned(s, sn);
    }
    if !NoneDoomed(s) {
      var sn :| Doomed(s, sn);
      DoomedIsAbandoned(s, sn);
      var id :| Abandoned(s, sn, id);
    }
  }

  /** Between two crashes, when all calls have returned: some row is open with nobody left to close
      it exactly when some task was ended inside the window of its own `start`, or by `force_finish`. */
  lemma {:induction false} LeftOpenIffEndedTooEarly(s: Sys, steps: seq<Step>)
    requires Rested(s) && Crash !in steps && AllIdle(Run(s, steps))
    ensures LeavesRow(Run(s, steps)) <==> !NeverTooEarly(s, steps)
  {
    DoomedIffEndedTooEarly(s, steps);
    LinearRun(s, steps);
    LeavesRowIffDoomed(Run(s, steps));
  }

  /** Open rows, `_row_ids` and unfinished entries are in bijection. */
  ghost predicate InBijection(s: Sys) {
    && (forall sn :: sn in s.rowIds <==> s.Active(sn))
    && (forall id :: 0 <= id < |s.rows| && s.rows[id].status == InProgress ==>
          s.rows[id].sn in s.rowIds && s.rowIds[s.rows[id].sn] == id)
  }

  lemma UndoomedBijection(s: Sys)
    requires ActiveClaimed(s) && NoneDoomed(s) && AllIdle(s)
    ensures InBijection(s)
  {
    forall sn ensures sn in s.rowIds <==> s.Active(sn) {
      assert !Doomed(s, sn);
    }
    forall id | 0 <= id < |s.rows| && s.rows[id].status == InProgress
      ensures s.rows[id].sn in s.rowIds && s.rowIds[s.rows[id].sn] == id
    {
      assert !Doomed(s, s.rows[id].sn);
      assert !Lost(s, s.rows[id].sn, id);
    }
  }

  /** With every thread idle and no task ended too early since the process began, the bijection of
      the atomic picture holds: that is what quiescent states show. */
  lemma {:induction false} QuiescentBijection(s: Sys, steps: seq<Step>)
    requires Rested(s) && Crash !in steps && NeverTooEarly(s, steps) && AllIdle(Run(s, steps))
    ensures InBijection(Run(s, steps))
  {
    DoomedIffEndedTooEarly(s, steps);
    UndoomedBijection(Run(s, steps));
  }

  /** The window is real: thread 1 finishes sn 7 while thread 0 is inserting its row. */
  lemma FinishInsideWindow()
    ensures var start := StartLock(0, 7, Other("waiting"));
      var s := Run(Boot(2), [start, FinishLock(1, 7), InsertRow(0), StoreId(0)]);
      && s.rows == [Row(7, InProgress)] && !s.Active(7) && s.closes == []
      && s.threads == [Idle, Idle]
      && Doomed(s, 7)
  {
    var start := StartLock(0, 7, Other("waiting"));
    assert Run(Boot(2), []) == Boot(2);
    var steps := [start, FinishLock(1, 7), InsertRow(0), StoreId(0)];
    assert steps[..3] == [start, FinishLock(1, 7), InsertRow(0)];
    assert steps[..3][..2] == [start, FinishLock(1, 7)];
    assert steps[..3][..2][..1] == [start];
    assert [start][..0] == [];
    var a := Run(Boot(2), [start]);
    assert a == Take(Boot(2), start);
    var b := Run(Boot(2), [start, FinishLock(1, 7)]);
    assert b == Take(a, FinishLock(1, 7));
  }

  // ------------------------------------------------------------------ the atomic calls are runs of these steps

  /** What this model sees of a bus with a repository. */
  function Seen(s: BusState, threads: seq<Pc>, closes: seq<Close>): Sys {
    Sys(map sn | sn in s.entries :: Slot(s.entries[sn].status, s.entries[sn].finishedAt.Some?),
        s.rowIds,
        seq(|s.Rows()|, i requires 0 <= i < |s.Rows()| => Row(s.Rows()[i].sn, s.Rows()[i].finalStatus)),
        threads, closes)
  }

  lemma RunTwo(s: Sys, a: Step, b: Step)
    ensures Run(s, [a, b]) == Take(Take(s, a), b)
  {
    assert [a, b][..1] == [a] && [a][..0] == [];
    assert Run(s, []) == s && Run(s, [a]) == Take(s, a);
  }

  lemma RunThree(s: Sys, a: Step, b: Step, c: Step)
    ensures Run(s, [a, b, c]) == Take(Take(Take(s, a), b), c)
  {
    RunTwo(s, a, b);
    assert [a, b, c][..2] == [a, b];
  }

  /** `start` undisturbed is its three steps. */
  lemma StartIsItsSteps(s: BusState, op: Op, threads: seq<Pc>, closes: seq<Close>, t: nat)
    requires op.Start? && s.ledger.Some? && t < |threads| && threads[t] == Idle
    ensures Seen(AfterStart(s, op), threads, closes) ==
      Run(Seen(s, threads, closes), [StartLock(t, op.sn, op.status), InsertRow(t), StoreId(t)])
  {
    RunThree(Seen(s, threads, closes), StartLock(t, op.sn, op.status), InsertRow(t), StoreId(t));
    var locked := Take(Seen(s, threads, closes), StartLock(t, op.sn, op.status));
    assert threads[t := Idle] == threads;
    if op.sn in s.rowIds || s.ActiveEntry(op.sn) {
      if op.sn in s.entries {
        RefreshSeen(s, op, threads, closes);
      }
      assert locked == Seen(Started(s, op), threads, closes);
    } else {
      FreshSeen(s, op, threads, closes, t);
    }
  }

  lemma RefreshSeen(s: BusState, op: Op, threads: seq<Pc>, closes: seq<Close>)
    requires op.Start? && op.sn in s.entries
    ensures var refreshed := s.(entries := s.entries[op.sn := Restarted(op, s.entries[op.sn])]);
      var u := Seen(s, threads, closes);
      Seen(refreshed, threads, closes) == u.(entries := u.entries[op.sn := u.entries[op.sn].(status := op.status)])
  {
  }

  lemma FreshSeen(s: BusState, op: Op, threads: seq<Pc>, closes: seq<Close>, t: nat)
    requires op.Start? && s.ledger.Some? && t < |threads| && threads[t] == Idle
    requires !(op.sn in s.rowIds || s.ActiveEntry(op.sn))
    ensures var u := Seen(s, threads, closes);
      Seen(Started(s, op), threads, closes) ==
        Take(Take(Take(u, StartLock(t, op.sn, op.status)), InsertRow(t)), StoreId(t))
  {
    assert threads[t := Inserting(op.sn)][t := Storing(op.sn, |s.Rows()|)][t := Idle] == threads;
    var u := Seen(s, threads, closes);
    var locked := Take(u, StartLock(t, op.sn, op.status));
    assert locked.threads[t] == Inserting(op.sn);
    var inserted := Take(locked, InsertRow(t));
    assert inserted.threads[t] == Storing(op.sn, |s.Rows()|);
    assert inserted.rows == u.rows + [Row(op.sn, InProgress)];
    assert Seen(Started(s, op), threads, closes).rows == u.rows + [Row(op.sn, InProgress)];
  }

  /** `finish` undisturbed is its two steps, and the close it logs has the status of the closed row. */
  lemma FinishIsItsSteps(s: BusState, sn: int, now: int, threads: seq<Pc>, closes: seq<Close>, t: nat)
    requires s.ledger.Some? && t < |threads| && threads[t] == Idle
    ensures var u := AfterFinish(s, sn, now);
      Run(Seen(s, threads, closes), [FinishLock(t, sn), CloseRow(t)]) ==
        Seen(u, threads, closes +
          if s.ActiveEntry(sn) && sn in s.rowIds then [Close(s.rowIds[sn], u.entries[sn].status)] else [])
  {
    var seen := Seen(s, threads, closes);
    RunTwo(seen, FinishLock(t, sn), CloseRow(t));
    assert closes + [] == closes;
    if s.ActiveEntry(sn) {
      var status := Coerced(s.entries[sn].status);
      var locked := Take(seen, FinishLock(t, sn));
      assert s.rowIds - {sn} == locked.rowIds;
      if sn in s.rowIds {
        assert locked.threads[t] == Closing(s.rowIds[sn], status);
        assert threads[t := Closing(s.rowIds[sn], status)][t := Idle] == threads;
        CloseSeen(s, sn, now);
      }
    }
  }

  lemma CloseSeen(s: BusState, sn: int, now: int)
    requires s.ledger.Some? && s.ActiveEntry(sn) && sn in s.rowIds
    ensures var id, status := s.rowIds[sn], Coerced(s.entries[sn].status);
      var rows := Seen(s, [], []).rows;
      Seen(AfterFinish(s, sn, now), [], []).rows ==
        if id < |rows| then rows[id := rows[id].(status := status)] else rows
  {
  }

  /** The other calls are one step each, and a crash with its boot step is `Crash`. */
  lemma OtherCallsAreSteps(s: BusState, op: Op, now: int, threads: seq<Pc>, closes: seq<Close>)
    requires s.ledger.Some?
    ensures op.UpdateStatus? ==>
      Seen(Apply(s, op), threads, closes) == Take(Seen(s, threads, closes), SetStatus(op.sn, op.status))
    ensures op.MarkRetry? ==>
      Seen(Apply(s, op), threads, closes) == Take(Seen(s, threads, closes), SetStatus(op.sn, Restarting))
    ensures op.Cancel? ==>
      Seen(Apply(s, op), threads, closes) == Take(Seen(s, threads, closes), SetStatus(op.sn, Cancelled))
    ensures op.ForceFinish? ==>
      Seen(Apply(s, op), threads, closes) == Take(Seen(s, threads, closes), Step.ForceFinish(op.sn, op.status))
    ensures Seen(Rebooted(s, now), seq(|threads|, i => Idle), closes) == Take(Seen(s, threads, closes), Crash)
  {
    if op.UpdateStatus? || op.MarkRetry? || op.Cancel? {
      StatusCallIsStep(s, op, threads, closes);
    }
  }

  lemma StatusCallIsStep(s: BusState, op: Op, threads: seq<Pc>, closes: seq<Close>)
    requires op.UpdateStatus? || op.MarkRetry? || op.Cancel?
    ensures var status := if op.UpdateStatus? then op.status else if op.MarkRetry? then Restarting else Cancelled;
      Seen(AfterEdit(s, op), threads, closes) == Take(Seen(s, threads, closes), SetStatus(op.sn, status))
  {
  }
}
