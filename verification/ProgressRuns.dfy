/** What every run of the bus keeps, when each public method is one atomic step. */
module ProgressRuns {
  import opened Wrappers
  import opened ProgressModel

  // ------------------------------------------------------------------ the ledger bijection

  /** `_row_ids` points, one to one, at open rows of the right sn. */
  predicate IdsOpen(rows: seq<HistoryRow>, rowIds: map<int, nat>) {
    forall sn :: sn in rowIds ==> rowIds[sn] < |rows| && rows[rowIds[sn]].sn == sn && rows[rowIds[sn]].Open()
  }

  /** Every open row is the one `_row_ids` holds for its sn. */
  predicate OpenRowsKnown(rows: seq<HistoryRow>, rowIds: map<int, nat>) {
    forall id :: 0 <= id < |rows| && rows[id].Open() ==> rows[id].sn in rowIds && rowIds[rows[id].sn] == id
  }

  ghost predicate RowIdsOpen(s: BusState) {
    s.ledger.Some? && IdsOpen(s.ledger.value, s.rowIds)
  }

  /** Open rows, `_row_ids` and unfinished entries are in bijection, sn by sn. */
  ghost predicate Bijection(s: BusState) {
    && RowIdsOpen(s)
    && OpenRowsKnown(s.ledger.value, s.rowIds)
    && (forall sn :: sn in s.rowIds <==> s.ActiveEntry(sn))
  }

  /** A `force_finish` hits an sn whose row is still open in this bus. */
  ghost predicate OrphansRow(s: BusState, op: Op) {
    op.ForceFinish? && op.sn in s.rowIds
  }

  ghost predicate NeverOrphans(s: BusState, ops: seq<Op>) {
    ops == [] ||
    (NeverOrphans(s, ops[..|ops| - 1]) && !OrphansRow(Run(s, ops[..|ops| - 1]), ops[|ops| - 1]))
  }

  /** The row of `sn` is open and recorded, but no unfinished entry is left to close it. */
  ghost predicate Orphaned(s: BusState, sn: int) {
    sn in s.rowIds && !s.ActiveEntry(sn)
  }

  lemma RowIdsOpenStep(s: BusState, op: Op)
    requires RowIdsOpen(s)
    ensures RowIdsOpen(Apply(s, op))
  {
  }

  ghost predicate StillOrphaned(s: BusState, t: BusState, sn: int)
    requires sn in s.rowIds
  {
    Orphaned(t, sn) && t.rowIds[sn] == s.rowIds[sn]
  }

  lemma OrphanStays(s: BusState, op: Op, sn: int)
    requires RowIdsOpen(s) && Orphaned(s, sn)
    ensures StillOrphaned(s, Apply(s, op), sn)
  {
    if op.Start? {
      assert StillOrphaned(s, Started(s, op), sn);
    } else if op.Edits() {
      OrphanStaysEdit(s, op, sn);
    } else {
    }
  }

  lemma OrphanStaysEdit(s: BusState, op: Op, sn: int)
    requires Orphaned(s, sn) && op.Edits()
    ensures StillOrphaned(s, AfterEdit(s, op), sn)
  {
  }

  /** An orphaned row is never closed again: it is open, under the same id, after any run. */
  lemma {:induction false} OrphanedForGood(s: BusState, ops: seq<Op>, sn: int)
    requires RowIdsOpen(s) && Orphaned(s, sn)
    ensures var t := Run(s, ops);
      && Orphaned(t, sn) && t.rowIds[sn] == s.rowIds[sn] < |t.Rows()|
      && t.Rows()[s.rowIds[sn]].sn == sn && t.Rows()[s.rowIds[sn]].Open()
  {
    RowIdsOpenRun(s, ops);
    if ops != [] {
      OrphanedForGood(s, ops[..|ops| - 1], sn);
      RowIdsOpenRun(s, ops[..|ops| - 1]);
      OrphanStays(Run(s, ops[..|ops| - 1]), ops[|ops| - 1], sn);
    }
  }

  lemma BijectionStep(s: BusState, op: Op)
    requires Bijection(s)
    ensures !OrphansRow(s, op) ==> Bijection(Apply(s, op))
    ensures OrphansRow(s, op) ==> Orphaned(Apply(s, op), op.sn)
  {
    if op.Start? {
      StartKeepsBijection(s, op);
    } else if op.Finish? {
      FinishKeepsBijection(s, op.sn, op.now);
    } else if op.TimerFires? {
      FinishKeepsBijection(s.(timers := s.timers - multiset{op.sn}), op.sn, op.now);
    } else if op.Edits() {
      EditKeepsBijection(s, op);
    } else {
    }
  }

  lemma StartKeepsBijection(s: BusState, op: Op)
    requires Bijection(s) && op.Start?
    ensures Bijection(AfterStart(s, op))
  {
  }

  lemma FinishKeepsBijection(s: BusState, sn: int, now: int)
    requires Bijection(s)
    ensures Bijection(AfterFinish(s, sn, now))
  {
  }

  lemma EditKeepsBijection(s: BusState, op: Op)
    requires Bijection(s) && op.Edits()
    ensures Bijection(AfterEdit(s, op))
  {
  }

  lemma {:induction false} RowIdsOpenRun(s: BusState, ops: seq<Op>)
    requires RowIdsOpen(s)
    ensures RowIdsOpen(Run(s, ops))
  {
    if ops != [] {
      RowIdsOpenRun(s, ops[..|ops| - 1]);
      RowIdsOpenStep(Run(s, ops[..|ops| - 1]), ops[|ops| - 1]);
    }
  }

  /** Over every run the bijection survives exactly when no `force_finish` ever hits an
      open row; the first one that does orphans its row for the rest of the process. */
  lemma {:induction false} BijectionRun(s: BusState, ops: seq<Op>)
    requires Bijection(s)
    ensures Bijection(Run(s, ops)) <==> NeverOrphans(s, ops)
    ensures !NeverOrphans(s, ops) ==> exists sn :: Orphaned(Run(s, ops), sn)
  {
    if ops != [] {
      var init, op := ops[..|ops| - 1], ops[|ops| - 1];
      BijectionRun(s, init);
      RowIdsOpenRun(s, init);
      if NeverOrphans(s, init) {
        BijectionStep(Run(s, init), op);
      } else {
        var sn :| Orphaned(Run(s, init), sn);
        OrphanStays(Run(s, init), op, sn);
      }
    }
  }

  const FIRST_BOOT: BusState := BusState(map[], map[], multiset{}, Some([]), None)

  function Waiting(sn: int, now: int): Op {
    Start(sn, "episode", Other("waiting"), Meta(None, None, None), None, None, None, now)
  }

  /** It happens: sn 7 is started and force-finished, and its row is orphaned. */
  lemma ForceFinishOrphans()
    ensures Bijection(FIRST_BOOT)
    ensures Orphaned(Run(FIRST_BOOT, [Waiting(7, 1), ForceFinish(7, Complete, None, None, 2)]), 7)
  {
    RunOne(FIRST_BOOT, Waiting(7, 1));
    RunMore(FIRST_BOOT, [Waiting(7, 1)], ForceFinish(7, Complete, None, None, 2));
    assert [Waiting(7, 1)] + [ForceFinish(7, Complete, None, None, 2)]
        == [Waiting(7, 1), ForceFinish(7, Complete, None, None, 2)];
  }

  /** What the bijection means for a reader of the table: never two open rows for one sn,
      and an sn has an open row exactly while its entry is unfinished. */
  lemma {:induction false} OneOpenRowPerSn(s: BusState, ops: seq<Op>)
    requires Bijection(s) && NeverOrphans(s, ops)
    ensures var t := Run(s, ops);
      && (forall i, j :: 0 <= i < j < |t.Rows()| && t.Rows()[i].Open() && t.Rows()[j].Open() ==>
            t.Rows()[i].sn != t.Rows()[j].sn)
      && (forall i :: 0 <= i < |t.Rows()| && t.Rows()[i].Open() ==> t.ActiveEntry(t.Rows()[i].sn))
      && (forall sn :: t.ActiveEntry(sn) ==> HasOpenRow(t.Rows(), sn))
  {
    BijectionRun(s, ops);
    var t := Run(s, ops);
    forall sn | t.ActiveEntry(sn) ensures HasOpenRow(t.Rows(), sn) {
      assert t.Rows()[t.rowIds[sn]].sn == sn;
    }
  }

  predicate HasOpenRow(rows: seq<HistoryRow>, sn: int) {
    exists i :: 0 <= i < |rows| && rows[i].sn == sn && rows[i].Open()
  }

  /** A crash in any state whatever, then `mark_interrupted_on_boot`: the bijection holds
      again, rows that were open read '中斷', all other rows are as they were. */
  lemma RebootRestoresBijection(s: BusState, now: int)
    requires s.ledger.Some?
    ensures Bijection(Rebooted(s, now))
    ensures |Rebooted(s, now).Rows()| == |s.Rows()|
    ensures forall id :: 0 <= id < |s.Rows()| ==>
      if s.Rows()[id].Open()
      then Rebooted(s, now).Rows()[id] == s.Rows()[id].(finalStatus := Interrupted, finishedAt := Some(now))
      else Rebooted(s, now).Rows()[id] == s.Rows()[id]
  {
  }

  // ------------------------------------------------------------------ closed rows

  ghost predicate ClosedAt(s: BusState, id: int) {
    0 <= id < |s.Rows()| && !s.Rows()[id].Open()
  }

  /** Once closed a row is frozen, whatever is called afterwards. */
  lemma {:induction false} ClosedRowsFrozen(s: BusState, ops: seq<Op>, id: int)
    requires RowIdsOpen(s) && ClosedAt(s, id)
    ensures ClosedAt(Run(s, ops), id) && Run(s, ops).Rows()[id] == s.Rows()[id]
  {
    if ops != [] {
      var init := ops[..|ops| - 1];
      ClosedRowsFrozen(s, init, id);
      RowIdsOpenRun(s, init);
      ClosedRowStep(Run(s, init), ops[|ops| - 1], id);
    }
  }

  lemma ClosedRowStep(s: BusState, op: Op, id: int)
    requires RowIdsOpen(s) && ClosedAt(s, id)
    ensures ClosedAt(Apply(s, op), id) && Apply(s, op).Rows()[id] == s.Rows()[id]
  {
  }

  /** The last value some operation of the trace wrote, or `init` when none did. */
  function Last<T>(ops: seq<Op>, write: Op -> Option<T>, init: T): T {
    if ops == [] then init
    else match write(ops[|ops| - 1])
      case Some(v) => v
      case None => Last(ops[..|ops| - 1], write, init)
  }

  function Retries(ops: seq<Op>, sn: int): nat {
    if ops == [] then 0
    else Retries(ops[..|ops| - 1], sn) + if ops[|ops| - 1] == MarkRetry(sn) then 1 else 0
  }

  function StatusWritten(sn: int): Op -> Option<Status> {
    (op: Op) =>
      if op.Prune? || op.sn != sn then None
      else if op.Start? || op.UpdateStatus? then Some(op.status)
      else if op.MarkRetry? then Some(Restarting)
      else if op.Cancel? then Some(Cancelled)
      else None
  }

  function FilenameWritten(sn: int): Op -> Option<string> {
    (op: Op) =>
      if op.Prune? || op.sn != sn then None
      else if op.Start? then Some(op.filename)
      else if op.UpdateMetadata? then op.newFilename
      else None
  }

  /** A non-None metadata value; `field` selects which of the three. */
  function FieldWritten(sn: int, field: Meta -> Option<string>): Op -> Option<Option<string>> {
    (op: Op) =>
      if op.Prune? || op.sn != sn then None
      else if (op.Start? || op.UpdateMetadata?) && field(op.meta).Some? then Some(field(op.meta))
      else if op.UpdateResolution? && field(Meta(None, None, Some(op.resolution))).Some?
      then Some(field(Meta(None, None, Some(op.resolution))))
      else None
  }

  const NAME: Meta -> Option<string> := (m: Meta) => m.bangumiName

  const EPISODE: Meta -> Option<string> := (m: Meta) => m.episode

  const RESOLUTION: Meta -> Option<string> := (m: Meta) => m.resolution

  function LastMeta(ops: seq<Op>, sn: int, init: Meta): Meta {
    Meta(Last(ops, FieldWritten(sn, NAME), init.bangumiName),
         Last(ops, FieldWritten(sn, EPISODE), init.episode),
         Last(ops, FieldWritten(sn, RESOLUTION), init.resolution))
  }

  /** `start` opens a new row: nothing is tracked, or what is tracked has finished. */
  ghost predicate FreshStart(s: BusState, start: Op) {
    start.Start? && RowIdsOpen(s) && start.sn !in s.rowIds && !s.ActiveEntry(start.sn)
  }

  ghost predicate NothingEnds(sn: int, ops: seq<Op>) {
    forall k :: 0 <= k < |ops| ==> !ops[k].Ends(sn)
  }

  /** While nothing ends the task, its entry is the last values written and its row is untouched. */
  lemma {:induction false} OpenTaskFollowsTrace(s: BusState, start: Op, mid: seq<Op>)
    requires FreshStart(s, start) && NothingEnds(start.sn, mid)
    ensures var t := Run(Apply(s, start), mid);
      && RowIdsOpen(t)
      && t.ActiveEntry(start.sn)
      && start.sn in t.rowIds && t.rowIds[start.sn] == |s.Rows()| < |t.Rows()|
      && t.Rows()[|s.Rows()|] == FreshRow(start)
      && t.entries[start.sn].retries == Retries(mid, start.sn)
      && t.entries[start.sn].status == Last(mid, StatusWritten(start.sn), start.status)
      && t.entries[start.sn].filename == Last(mid, FilenameWritten(start.sn), start.filename)
      && t.entries[start.sn].meta == LastMeta(mid, start.sn, start.meta)
  {
    if mid == [] {
    } else {
      var init, op := mid[..|mid| - 1], mid[|mid| - 1];
      assert !op.Ends(start.sn);
      OpenTaskFollowsTrace(s, start, init);
      var t := Run(Apply(s, start), init);
      RowIdsOpenStep(t, op);
      OpenTaskStep(t, op, start.sn);
      assert Run(Apply(s, start), mid) == Apply(t, op);
    }
  }

  /** One operation that does not end the task: what it writes lands in the entry, nothing else does. */
  lemma OpenTaskStep(t: BusState, op: Op, sn: int)
    requires RowIdsOpen(t) && t.ActiveEntry(sn) && sn in t.rowIds && !op.Ends(sn)
    ensures TaskAdvanced(t, Apply(t, op), op, sn)
  {
    if op.Start? {
      OpenTaskStart(t, op, sn);
    } else if op.Edits() {
      OpenTaskEdit(t, op, sn);
    } else {
    }
  }

  ghost predicate TaskAdvanced(t: BusState, u: BusState, op: Op, sn: int)
    requires t.ActiveEntry(sn) && sn in t.rowIds
  {
    && u.ActiveEntry(sn) && sn in u.rowIds && u.rowIds[sn] == t.rowIds[sn] < |u.Rows()|
    && t.rowIds[sn] < |t.Rows()| && u.Rows()[t.rowIds[sn]] == t.Rows()[t.rowIds[sn]]
    && EntryAdvanced(t.entries[sn], u.entries[sn], op, sn)
  }

  predicate EntryAdvanced(e: TaskProgress, f: TaskProgress, op: Op, sn: int) {
    && f.retries == e.retries + (if op == MarkRetry(sn) then 1 else 0)
    && f.status == StatusWritten(sn)(op).GetOr(e.status)
    && f.filename == FilenameWritten(sn)(op).GetOr(e.filename)
    && f.meta == Meta(
         FieldWritten(sn, NAME)(op).GetOr(e.meta.bangumiName),
         FieldWritten(sn, EPISODE)(op).GetOr(e.meta.episode),
         FieldWritten(sn, RESOLUTION)(op).GetOr(e.meta.resolution))
  }

  lemma OpenTaskStart(t: BusState, op: Op, sn: int)
    requires RowIdsOpen(t) && t.ActiveEntry(sn) && sn in t.rowIds && op.Start?
    ensures TaskAdvanced(t, AfterStart(t, op), op, sn)
  {
  }

  lemma OpenTaskEdit(t: BusState, op: Op, sn: int)
    requires RowIdsOpen(t) && t.ActiveEntry(sn) && sn in t.rowIds && op.Edits()
    ensures TaskAdvanced(t, AfterEdit(t, op), op, sn)
  {
    if op.sn == sn {
      EditAdvances(t.entries[sn], op);
    }
  }

  lemma EditAdvances(e: TaskProgress, op: Op)
    requires op.Edits()
    ensures EntryAdvanced(e, Edited(op, e), op, op.sn) && Edited(op, e).Active() == e.Active()
  {
  }

  lemma {:induction false} FieldNeverUnwritten(ops: seq<Op>, sn: int, field: Meta -> Option<string>,
                                               init: Option<string>)
    ensures Last(ops, FieldWritten(sn, field), init).Or(init) == Last(ops, FieldWritten(sn, field), init)
  {
    if ops != [] {
      FieldNeverUnwritten(ops[..|ops| - 1], sn, field, init);
    }
  }

  function RateWritten(sn: int): Op -> Option<real> {
    (op: Op) =>
      if op.Prune? || op.sn != sn then None
      else if op.Start? then Some(0.0)
      else if op.UpdateRate? then Some(op.rate)
      else if op.UpdateStats? then op.newRate
      else None
  }

  function SpeedWritten(sn: int): Op -> Option<Option<real>> {
    (op: Op) =>
      if op.Prune? || op.sn != sn then None
      else if op.Start? then Some(None)
      else if op.UpdateStats? && op.speed.Some? then Some(op.speed)
      else None
  }

  function EtaWritten(sn: int): Op -> Option<Option<int>> {
    (op: Op) =>
      if op.Prune? || op.sn != sn then None
      else if op.Start? then Some(None)
      else if op.UpdateStats? && op.eta.Some? then Some(op.eta)
      else None
  }

  function CooldownWritten(sn: int): Op -> Option<Option<int>> {
    (op: Op) =>
      if op.Prune? || op.sn != sn then None
      else if op.Start? || op.ClearCooldown? then Some(None)
      else if op.SetCooldown? then Some(Some(op.until))
      else None
  }

  function Cancels(ops: seq<Op>, sn: int): nat {
    if ops == [] then 0
    else Cancels(ops[..|ops| - 1], sn) + if ops[|ops| - 1] == Cancel(sn) then 1 else 0
  }

  /** The entry an open task has, told from its trace alone, field by field. Its cancel event is set
      exactly when it was cancelled. */
  function TraceEntry(start: Op, mid: seq<Op>): TaskProgress
    requires start.Start?
  {
    TaskProgress(
      Last(mid, RateWritten(start.sn), 0.0),
      Last(mid, StatusWritten(start.sn), start.status),
      Last(mid, FilenameWritten(start.sn), start.filename),
      LastMeta(mid, start.sn, start.meta),
      Last(mid, SpeedWritten(start.sn), None),
      Last(mid, EtaWritten(start.sn), None),
      Retries(mid, start.sn),
      Some(start.now), None, start.ownerId, start.source, start.externalId,
      Last(mid, CooldownWritten(start.sn), None),
      Signal(Cancels(mid, start.sn) > 0))
  }

  lemma TraceEntryEdit(start: Op, mid: seq<Op>, op: Op)
    requires start.Start? && op.Edits()
    ensures TraceEntry(start, mid + [op]) ==
      if op.sn == start.sn then Edited(op, TraceEntry(start, mid)) else TraceEntry(start, mid)
  {
    assert (mid + [op])[..|mid|] == mid;
  }

  lemma TraceEntryStart(start: Op, mid: seq<Op>, op: Op)
    requires start.Start? && op.Start?
    ensures TraceEntry(start, mid + [op]) ==
      if op.sn == start.sn then Restarted(op, TraceEntry(start, mid)) else TraceEntry(start, mid)
  {
    assert (mid + [op])[..|mid|] == mid;
  }

  lemma TraceEntryOther(start: Op, mid: seq<Op>, op: Op)
    requires start.Start? && !op.Ends(start.sn) && !op.Start? && !op.Edits()
    ensures TraceEntry(start, mid + [op]) == TraceEntry(start, mid)
  {
    assert (mid + [op])[..|mid|] == mid;
  }

  /** One operation that does not end the task does to its entry what it says, or nothing. */
  lemma EntryStep(t: BusState, op: Op, sn: int)
    requires t.ActiveEntry(sn) && !op.Ends(sn)
    ensures sn in Apply(t, op).entries
    ensures Apply(t, op).entries[sn] ==
      if op.Start? && op.sn == sn then Restarted(op, t.entries[sn])
      else if op.Edits() && op.sn == sn then Edited(op, t.entries[sn])
      else t.entries[sn]
  {
    if op.Start? {
      assert Apply(t, op).entries == Started(t, op).entries;
    } else if op.Edits() {
      EntryStepEdit(t, op, sn);
    } else {
    }
  }

  lemma EntryStepEdit(t: BusState, op: Op, sn: int)
    requires t.ActiveEntry(sn) && op.Edits()
    ensures sn in AfterEdit(t, op).entries
    ensures AfterEdit(t, op).entries[sn] == if op.sn == sn then Edited(op, t.entries[sn]) else t.entries[sn]
  {
  }

  /** While nothing ends the task, every field of its entry is a function of the trace: the last values
      written, the retries counted, and the cancel event set exactly when a cancel came. */
  lemma {:induction false} OpenEntryIsTheTrace(s: BusState, start: Op, mid: seq<Op>)
    requires FreshStart(s, start) && NothingEnds(start.sn, mid)
    ensures var t := Run(Apply(s, start), mid);
      && start.sn in t.entries && t.entries[start.sn] == TraceEntry(start, mid)
      && t.entries[start.sn].cancel == Signal(Cancels(mid, start.sn) > 0)
  {
    if mid != [] {
      var init, op := mid[..|mid| - 1], mid[|mid| - 1];
      assert !op.Ends(start.sn) && init + [op] == mid;
      OpenEntryIsTheTrace(s, start, init);
      OpenTaskFollowsTrace(s, start, init);
      EntryStep(Run(Apply(s, start), init), op, start.sn);
      if op.Start? {
        TraceEntryStart(start, init, op);
      } else if op.Edits() {
        TraceEntryEdit(start, init, op);
      } else {
        TraceEntryOther(start, init, op);
      }
    }
  }

  /** What closing leaves of it in memory: the status of the trace, '中斷' unless that is terminal, and a
      full bar exactly for a success. */
  lemma FinishedEntryIsTheTrace(s: BusState, start: Op, mid: seq<Op>, close: Op)
    requires FreshStart(s, start) && NothingEnds(start.sn, mid)
    requires Closes(Run(Apply(s, start), mid), close, start.sn)
    ensures var t, e := Apply(Run(Apply(s, start), mid), close), TraceEntry(start, mid);
      && start.sn in t.entries
      && var status :=
           if e.status in {Complete, AllDone, Cancelled, Interrupted, Failed} then e.status else Interrupted;
         t.entries[start.sn] ==
           e.(status := status, finishedAt := Some(close.now),
              rate := if status == Complete || status == AllDone then 1.0 else e.rate)
  {
    OpenEntryIsTheTrace(s, start, mid);
    OpenTaskFollowsTrace(s, start, mid);
    var open := Run(Apply(s, start), mid);
    assert Apply(open, close).entries[start.sn] == FinishedEntry(open.entries[start.sn], close.now);
  }

  /** The two calls that close a task's row: `finish`, and a delayed `finish` that `cancel` scheduled. */
  predicate Closes(s: BusState, close: Op, sn: int) {
    && (close.Finish? || (close.TimerFires? && close.sn in s.timers))
    && close.sn == sn
  }

  /** A closed row is a function of the trace that led to it, and stays that for good. */
  lemma ClosedRowIsTheTrace(s: BusState, start: Op, mid: seq<Op>, close: Op, later: seq<Op>)
    requires FreshStart(s, start) && NothingEnds(start.sn, mid)
    requires Closes(Run(Apply(s, start), mid), close, start.sn)
    ensures var id := |s.Rows()|;
      var t := Run(Apply(Run(Apply(s, start), mid), close), later);
      && id < |t.Rows()|
      && t.Rows()[id] == HistoryRow(
           start.sn, start.ownerId,
           Last(mid, FilenameWritten(start.sn), start.filename),
           LastMeta(mid, start.sn, start.meta),
           Coerced(Last(mid, StatusWritten(start.sn), start.status)),
           Some(start.now), Some(close.now), Retries(mid, start.sn),
           start.source, start.externalId)
      && t.Rows()[id].finalStatus in ALREADY_TERMINAL
  {
    OpenTaskFollowsTrace(s, start, mid);
    var open := Run(Apply(s, start), mid);
    FieldNeverUnwritten(mid, start.sn, NAME, start.meta.bangumiName);
    FieldNeverUnwritten(mid, start.sn, EPISODE, start.meta.episode);
    FieldNeverUnwritten(mid, start.sn, RESOLUTION, start.meta.resolution);
    var closed := Apply(open, close);
    RowIdsOpenStep(open, close);
    ClosedRowsFrozen(closed, later, |s.Rows()|);
  }

  /** An operation on one sn leaves every other task alone. */
  lemma OtherTasksUntouched(s: BusState, op: Op, sn: int)
    requires !op.Prune? && op.sn != sn
    ensures var t := Apply(s, op);
      && (sn in t.entries <==> sn in s.entries) && (sn in s.entries ==> t.entries[sn] == s.entries[sn])
      && (sn in t.rowIds <==> sn in s.rowIds) && (sn in s.rowIds ==> t.rowIds[sn] == s.rowIds[sn])
      && t.timers[sn] == s.timers[sn]
  {
    if op.Start? {
      assert Apply(s, op).entries == Started(s, op).entries && Apply(s, op).rowIds == Started(s, op).rowIds;
    } else if op.Edits() {
      EditTouchesOne(s, op, sn);
    } else if op.TimerFires? {
      FinishTouchesOne(s.(timers := s.timers - multiset{op.sn}), op.sn, op.now, sn);
    } else {
    }
  }

  lemma EditTouchesOne(s: BusState, op: Op, other: int)
    requires op.Edits() && other != op.sn
    ensures var t := AfterEdit(s, op);
      && (other in t.entries <==> other in s.entries) && (other in s.entries ==> t.entries[other] == s.entries[other])
      && t.rowIds == s.rowIds && t.timers[other] == s.timers[other]
  {
  }

  lemma FinishTouchesOne(s: BusState, sn: int, now: int, other: int)
    requires other != sn
    ensures var t := AfterFinish(s, sn, now);
      && (other in t.entries <==> other in s.entries) && (other in s.entries ==> t.entries[other] == s.entries[other])
      && (other in t.rowIds <==> other in s.rowIds) && (other in s.rowIds ==> t.rowIds[other] == s.rowIds[other])
      && t.timers == s.timers
  {
  }

  // ------------------------------------------------------------------ legacy normalisation

  predicate BusClosed(row: HistoryRow) {
    row.Open() || row.finalStatus in ALREADY_TERMINAL
  }

  predicate BusClosedFrom(rows: seq<HistoryRow>, n: nat) {
    forall k :: n <= k < |rows| ==> BusClosed(rows[k])
  }

  /** Rows the bus alone writes are always open or terminal. */
  lemma {:induction false} BusRowsStayBusClosed(s: BusState, ops: seq<Op>, n: nat)
    requires s.ledger.Some? && BusClosedFrom(s.ledger.value, n)
    ensures Run(s, ops).ledger.Some? && |Run(s, ops).ledger.value| >= |s.ledger.value|
    ensures BusClosedFrom(Run(s, ops).ledger.value, n)
  {
    if ops != [] {
      BusRowsStayBusClosed(s, ops[..|ops| - 1], n);
      BusRowsStep(Run(s, ops[..|ops| - 1]), ops[|ops| - 1], n);
    }
  }

  lemma BusRowsStep(s: BusState, op: Op, n: nat)
    requires s.ledger.Some? && BusClosedFrom(s.ledger.value, n)
    ensures Apply(s, op).ledger.Some? && |Apply(s, op).ledger.value| >= |s.ledger.value|
    ensures BusClosedFrom(Apply(s, op).ledger.value, n)
  {
    if op.Finish? {
      BusRowsFinish(s, op.sn, op.now, n);
    } else if op.TimerFires? {
      BusRowsFinish(s.(timers := s.timers - multiset{op.sn}), op.sn, op.now, n);
    } else if op.Edits() {
      assert AfterEdit(s, op).ledger == s.ledger;
    } else {
    }
  }

  lemma BusRowsFinish(s: BusState, sn: int, now: int, n: nat)
    requires s.ledger.Some? && BusClosedFrom(s.ledger.value, n)
    ensures AfterFinish(s, sn, now).ledger.Some?
    ensures |AfterFinish(s, sn, now).ledger.value| == |s.ledger.value|
    ensures BusClosedFrom(AfterFinish(s, sn, now).ledger.value, n)
  {
  }

  /** Hence a table only the bus writes is never touched by `normalize_legacy_statuses`. */
  lemma {:induction false} NormalizeKeepsBusRows(s: BusState, ops: seq<Op>)
    requires s.ledger.Some? && BusClosedFrom(s.ledger.value, 0)
    ensures NormalizeAll(Run(s, ops).Rows()) == Run(s, ops).Rows()
  {
    BusRowsStayBusClosed(s, ops, 0);
  }

  /** `list_recent` hides these two statuses. */
  predicate ListedRecent(row: HistoryRow, cutoff: int) {
    row.finishedAt.Some? && row.finishedAt.value >= cutoff && row.finalStatus !in {Cancelled, Interrupted}
  }

  /** Exactly the closed rows with an unknown status are rewritten. The '下載失敗' the landing
      worker writes is one of them: the next boot turns it into '中斷', and a row that
      `list_recent` showed is hidden from then on. */
  lemma NormalizeRewrites(row: HistoryRow, cutoff: int)
    ensures Normalize(row) != row <==> !BusClosed(row) && row.finishedAt.Some?
    ensures Normalize(Normalize(row)) == Normalize(row)
    ensures row.finalStatus == LandingFailed && ListedRecent(row, cutoff) ==> !ListedRecent(Normalize(row), cutoff)
  {
  }

  // ------------------------------------------------------------------ cancellation

  /** Every cancelled task that is still open has a delayed finish on its way. */
  ghost predicate CancelsPending(s: BusState) {
    forall sn :: s.ActiveEntry(sn) && s.entries[sn].cancel == Signal(true) ==> sn in s.timers
  }

  lemma {:induction false} CancelsPendingRun(s: BusState, ops: seq<Op>)
    requires CancelsPending(s)
    ensures CancelsPending(Run(s, ops))
  {
    if ops != [] {
      CancelsPendingRun(s, ops[..|ops| - 1]);
      CancelsPendingStep(Run(s, ops[..|ops| - 1]), ops[|ops| - 1]);
    }
  }

  lemma CancelsPendingStep(s: BusState, op: Op)
    requires CancelsPending(s)
    ensures CancelsPending(Apply(s, op))
  {
    if op.Start? {
      assert CancelsPending(Started(s, op));
    } else if op.Edits() {
      CancelsPendingEdit(s, op);
    } else {
    }
  }

  lemma CancelsPendingEdit(s: BusState, op: Op)
    requires CancelsPending(s) && op.Edits()
    ensures CancelsPending(AfterEdit(s, op))
  {
    var t := AfterEdit(s, op);
    forall sn | t.ActiveEntry(sn) && t.entries[sn].cancel == Signal(true) ensures sn in t.timers {
      assert (op.Cancel? && op.sn == sn) || (s.ActiveEntry(sn) && s.entries[sn].cancel == Signal(true));
    }
  }

  /** While a task is open its timers are those it found at its start, and one more a `cancel`. */
  lemma {:induction false} TimersOfOpenTask(s: BusState, start: Op, mid: seq<Op>)
    requires FreshStart(s, start) && NothingEnds(start.sn, mid)
    ensures Run(Apply(s, start), mid).timers[start.sn] == s.timers[start.sn] + Cancels(mid, start.sn)
  {
    if mid != [] {
      var init, op := mid[..|mid| - 1], mid[|mid| - 1];
      assert !op.Ends(start.sn);
      TimersOfOpenTask(s, start, init);
      OpenTaskFollowsTrace(s, start, init);
      TimersStep(Run(Apply(s, start), init), op, start.sn);
    }
  }

  lemma TimersStep(t: BusState, op: Op, sn: int)
    requires sn in t.entries && !op.Ends(sn)
    ensures Apply(t, op).timers[sn] == t.timers[sn] + if op == Cancel(sn) then 1 else 0
  {
    if op.Start? {
      assert Started(t, op).timers == t.timers;
    } else if op.Edits() {
    } else if op.TimerFires? {
      assert AfterFinish(t.(timers := t.timers - multiset{op.sn}), op.sn, op.now).timers == t.timers - multiset{op.sn};
    } else {
    }
  }

  lemma {:induction false} NoCancels(ops: seq<Op>, sn: int)
    requires forall k :: 0 <= k < |ops| ==> ops[k] != Cancel(sn)
    ensures Cancels(ops, sn) == 0
  {
    if ops != [] {
      NoCancels(ops[..|ops| - 1], sn);
    }
  }

  /** The delayed finish is not tied to the task that was cancelled: it ends a task started anew,
      which nobody cancelled or finished, exactly when one was still pending at its start. */
  lemma StaleTimerInterrupts(s: BusState, start: Op, mid: seq<Op>, now: int)
    requires FreshStart(s, start) && NothingEnds(start.sn, mid)
    requires forall k :: 0 <= k < |mid| ==> mid[k] != Cancel(start.sn)
    ensures var id := |s.Rows()|;
      var t := Apply(Run(Apply(s, start), mid), TimerFires(start.sn, now));
      && (!t.ActiveEntry(start.sn) <==> start.sn in s.timers)
      && id < |t.Rows()|
      && (start.sn in s.timers ==>
            t.Rows()[id].finalStatus == Coerced(Last(mid, StatusWritten(start.sn), start.status)))
      && (start.sn !in s.timers ==> t.Rows()[id] == FreshRow(start))
  {
    OpenTaskFollowsTrace(s, start, mid);
    TimersOfOpenTask(s, start, mid);
    NoCancels(mid, start.sn);
  }

  lemma WaitingCancelled(a: BusState, b: BusState)
    requires a.ActiveEntry(7) && a.timers == multiset{} && b == Apply(a, Cancel(7))
    ensures b.ActiveEntry(7) && b.entries[7].status == Cancelled
    ensures b.rowIds == a.rowIds && b.ledger == a.ledger && b.timers == multiset{7}
  {
  }

  lemma CancelledAndFinished()
    ensures var t := Run(FIRST_BOOT, [Waiting(7, 1), Cancel(7), Finish(7, 3)]);
      && t.ledger.Some? && t.rowIds == map[] && t.timers == multiset{7} && !t.ActiveEntry(7)
      && |t.Rows()| == 1 && t.Rows()[0].finalStatus == Cancelled && t.Rows()[0].finishedAt == Some(3)
  {
    RunOne(FIRST_BOOT, Waiting(7, 1));
    var a := Run(FIRST_BOOT, [Waiting(7, 1)]);
    assert a.ActiveEntry(7) && a.rowIds == map[7 := 0] && a.Rows() == [FreshRow(Waiting(7, 1))];
    RunMore(FIRST_BOOT, [Waiting(7, 1)], Cancel(7));
    var b := Apply(a, Cancel(7));
    WaitingCancelled(a, b);
    assert [Waiting(7, 1)] + [Cancel(7)] + [Finish(7, 3)] == [Waiting(7, 1), Cancel(7), Finish(7, 3)];
    RunMore(FIRST_BOOT, [Waiting(7, 1)] + [Cancel(7)], Finish(7, 3));
  }

  /** A task that is started while a timer is pending, and then nothing but that timer. */
  lemma StartedUnderTimer(c: BusState, start: Op, now: int)
    requires FreshStart(c, start) && start.sn in c.timers && start.status !in ALREADY_TERMINAL
    ensures var t := Apply(Apply(c, start), TimerFires(start.sn, now));
      && !t.ActiveEntry(start.sn) && |c.Rows()| < |t.Rows()|
      && t.Rows()[|c.Rows()|] ==
           FreshRow(start).(finalStatus := Interrupted, finishedAt := Some(now))
      && forall id :: 0 <= id < |c.Rows()| && !c.Rows()[id].Open() ==> t.Rows()[id] == c.Rows()[id]
  {
    var fires := TimerFires(start.sn, now);
    assert Run(Apply(c, start), []) == Apply(c, start);
    OpenTaskFollowsTrace(c, start, []);
    StaleTimerInterrupts(c, start, [], now);
    assert Run(Apply(Apply(c, start), fires), []) == Apply(Apply(c, start), fires);
    ClosedRowIsTheTrace(c, start, [], fires, []);
    RowIdsOpenStep(c, start);
    forall id | 0 <= id < |c.Rows()| && !c.Rows()[id].Open()
      ensures id < |Apply(Apply(c, start), fires).Rows()|
      ensures Apply(Apply(c, start), fires).Rows()[id] == c.Rows()[id]
    {
      ClosedRowStep(c, start, id);
      ClosedRowStep(Apply(c, start), fires, id);
    }
  }

  /** It happens: sn 7 is cancelled, finished by its worker at 3 and started again at 4; the timer
      of the first task interrupts the second one at 5, though nothing ever cancelled that. */
  lemma StaleTimerRun()
    ensures var t := Run(FIRST_BOOT, [Waiting(7, 1), Cancel(7), Finish(7, 3)] + [Waiting(7, 4)] + [TimerFires(7, 5)]);
      && !t.ActiveEntry(7) && |t.Rows()| >= 2
      && t.Rows()[0].finalStatus == Cancelled && t.Rows()[0].finishedAt == Some(3)
      && t.Rows()[1] == FreshRow(Waiting(7, 4)).(finalStatus := Interrupted, finishedAt := Some(5))
  {
    var head := [Waiting(7, 1), Cancel(7), Finish(7, 3)];
    CancelledAndFinished();
    RunMore(FIRST_BOOT, head, Waiting(7, 4));
    RunMore(FIRST_BOOT, head + [Waiting(7, 4)], TimerFires(7, 5));
    StartedUnderTimer(Run(FIRST_BOOT, head), Waiting(7, 4), 5);
  }

  // ------------------------------------------------------------------ the mirror

  /** The mirror shows every tracked entry as it is, and lists it as active while unfinished. */
  ghost predicate Mirrored(s: BusState) {
    s.mirror.Some? &&
    forall sn :: sn in s.entries ==>
      && sn in s.mirror.value.cards
      && s.mirror.value.cards[sn] == s.entries[sn].Stripped()
      && (sn in s.mirror.value.active <==> s.entries[sn].Active())
  }

  /** The sns a trace may create an entry for. */
  function Adopted(ops: seq<Op>): set<int> {
    if ops == [] then {}
    else
      var op := ops[|ops| - 1];
      Adopted(ops[..|ops| - 1]) + if op.Start? || op.ForceFinish? then {op.sn} else {}
  }

  ghost predicate JustBooted(s: BusState) {
    s.mirror.Some? && s.entries == map[] && s.rowIds == map[]
  }

  /** The active set is the unfinished entries plus the ghosts nobody adopted. */
  ghost predicate ActiveListed(s: BusState, ghosts: set<int>, adopted: set<int>) {
    && Mirrored(s)
    && (forall sn :: sn in s.rowIds || sn in s.entries ==> sn in adopted)
    && (forall sn :: sn in s.mirror.value.active <==> s.ActiveEntry(sn) || (sn in ghosts && sn !in adopted))
  }

  /** From a fresh boot, whatever is called: cards equal entries, and the active set is exactly
      the unfinished entries plus the ghosts of earlier processes nobody has adopted. */
  lemma {:induction false} MirrorRun(s: BusState, ops: seq<Op>)
    requires JustBooted(s)
    ensures ActiveListed(Run(s, ops), s.mirror.value.active, Adopted(ops))
  {
    if ops != [] {
      var init, op, ghosts := ops[..|ops| - 1], ops[|ops| - 1], s.mirror.value.active;
      var t := Run(s, init);
      MirrorRun(s, init);
      if op.Start? {
        MirrorStart(ghosts, Adopted(init), t, op);
      } else if op.ForceFinish? {
        MirrorForceFinish(ghosts, Adopted(init), t, op);
      } else if op.Finish? {
        MirrorFinish(ghosts, Adopted(init), t, op.sn, op.now);
      } else if op.TimerFires? {
        MirrorFinish(ghosts, Adopted(init), t.(timers := t.timers - multiset{op.sn}), op.sn, op.now);
      } else if op.Edits() {
        MirrorEdit(ghosts, Adopted(init), t, op);
      } else {
        MirrorPrune(ghosts, Adopted(init), t, op.now);
      }
    }
  }

  lemma MirrorStart(ghosts: set<int>, adopted: set<int>, t: BusState, op: Op)
    requires ActiveListed(t, ghosts, adopted) && op.Start?
    ensures ActiveListed(AfterStart(t, op), ghosts, adopted + {op.sn})
  {
  }

  lemma MirrorForceFinish(ghosts: set<int>, adopted: set<int>, t: BusState, op: Op)
    requires ActiveListed(t, ghosts, adopted) && op.ForceFinish?
    ensures ActiveListed(AfterForceFinish(t, op), ghosts, adopted + {op.sn})
  {
  }

  lemma MirrorFinish(ghosts: set<int>, adopted: set<int>, t: BusState, sn: int, now: int)
    requires ActiveListed(t, ghosts, adopted)
    ensures ActiveListed(AfterFinish(t, sn, now), ghosts, adopted)
  {
  }

  lemma MirrorEdit(ghosts: set<int>, adopted: set<int>, t: BusState, op: Op)
    requires ActiveListed(t, ghosts, adopted) && op.Edits()
    ensures ActiveListed(AfterEdit(t, op), ghosts, adopted)
  {
  }

  lemma MirrorPrune(ghosts: set<int>, adopted: set<int>, t: BusState, now: int)
    requires ActiveListed(t, ghosts, adopted)
    ensures ActiveListed(AfterPrune(t, now), ghosts, adopted)
  {
  }

  /** From a fresh boot, whatever is called, every card agrees with its entry field by field. */
  lemma {:induction false} CardsAgree(s: BusState, ops: seq<Op>)
    requires JustBooted(s)
    ensures var t := Run(s, ops);
      t.mirror.Some? && forall sn :: sn in t.entries ==>
        sn in t.mirror.value.cards && AgreesWithoutEvent(t.mirror.value.cards[sn], t.entries[sn])
  {
    MirrorRun(s, ops);
  }

  /** `record_finish` on any id: only that row changes, and what is not given stays as it was. */
  lemma RowFinishedIs(rows: seq<HistoryRow>, id: nat, status: Status, now: int, retries: nat, meta: Meta,
                      filename: Option<string>)
    ensures var after := RowFinished(rows, id, status, now, retries, meta, filename);
      && (forall i :: 0 <= i < |rows| && i != id ==> after[i] == rows[i])
      && (id < |rows| ==>
            after[id] == HistoryRow(
              rows[id].sn, rows[id].ownerId, if filename.Some? then filename.value else rows[id].filename,
              Meta(if meta.bangumiName.Some? then meta.bangumiName else rows[id].meta.bangumiName,
                   if meta.episode.Some? then meta.episode else rows[id].meta.episode,
                   if meta.resolution.Some? then meta.resolution else rows[id].meta.resolution),
              status, rows[id].startedAt, Some(now), retries, rows[id].source, rows[id].externalId))
  {
  }

  /** What `force_finish` leaves in memory, with and without an unfinished entry; a finished one stays. */
  lemma ForceFinishEntry(s: BusState, op: Op)
    requires op.ForceFinish?
    ensures op.sn in Apply(s, op).entries
    ensures var e := Apply(s, op).entries[op.sn];
      if op.sn in s.entries && s.entries[op.sn].finishedAt.Some? then e == s.entries[op.sn]
      else
        && e.status == op.status && e.finishedAt == Some(op.now)
        && (op.forcedFilename.Some? ==> e.filename == op.forcedFilename.value)
        && (op.status in {Complete, AllDone} ==> e.rate == 1.0)
        && (op.sn !in s.entries ==>
              e.source == op.source && e.retries == 0 && e.cancel == NoSignal && e.startedAt.None?
              && (op.forcedFilename.None? ==> e.filename == ""))
        && (op.sn in s.entries ==>
              var before := s.entries[op.sn];
              e == before.(status := e.status, finishedAt := e.finishedAt, rate := e.rate, filename := e.filename)
              && (op.forcedFilename.None? ==> e.filename == before.filename)
              && (op.status !in {Complete, AllDone} ==> e.rate == before.rate))
    ensures forall sn :: sn != op.sn ==>
      (sn in Apply(s, op).entries <==> sn in s.entries)
      && (sn in s.entries ==> Apply(s, op).entries[sn] == s.entries[sn])
    ensures Apply(s, op).rowIds == s.rowIds && Apply(s, op).ledger == s.ledger && Apply(s, op).timers == s.timers
  {
  }

  /** A prune forgets exactly the entries finished more than seven days ago, and nothing else. */
  lemma PruneForgets(s: BusState, now: int, sn: int)
    requires sn in s.entries
    ensures var t := Apply(s, Prune(now));
      && (sn in t.entries <==> s.entries[sn].finishedAt.None? || s.entries[sn].finishedAt.value >= now - 604800)
      && (sn in t.entries ==> t.entries[sn] == s.entries[sn])
      && t.rowIds == s.rowIds && t.ledger == s.ledger && t.mirror == s.mirror && t.timers == s.timers
  {
  }

  /** `force_finish` on a ghost takes that ghost, and nothing else, off the active list. */
  lemma ForceFinishClearsGhost(s: BusState, op: Op)
    requires Mirrored(s) && op.ForceFinish? && op.sn !in s.entries
    ensures Apply(s, op).mirror.value.active == s.mirror.value.active - {op.sn}
    ensures !Apply(s, op).ActiveEntry(op.sn) && op.sn in Apply(s, op).mirror.value.cards
    ensures Apply(s, op).mirror.value.cards[op.sn].status == op.status
    ensures forall sn :: sn in s.mirror.value.cards && sn != op.sn ==>
      sn in Apply(s, op).mirror.value.cards && Apply(s, op).mirror.value.cards[sn] == s.mirror.value.cards[sn]
    ensures Apply(s, op).ledger == s.ledger
  {
  }
}
