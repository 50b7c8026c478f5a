/** `ManualRunner._download_one` and `_download_many` as clients of the bus. */
module ManualRunner {
  import opened Wrappers
  import opened ProgressModel
  import opened ProgressRuns
  import Bus = ProgressBus

  /** How `anime.download` ends. */
  datatype Ending = Succeeds | RaisesCancelled | RaisesFailure

  /** What one download does; `inner` are the bus calls made inside `anime.download`. `StartRaises`
      and `AnnounceRaises` raise outside every try block of `_download_one`; `reportRaises` is the
      Telegram report of the end raising inside an except or else branch. */
  datatype Behaviour =
    | SkippedInQueue
    | AnnounceRaises
    | LoadRaises(reportRaises: bool)
    | StartRaises
    | Downloads(inner: seq<Op>, ending: Ending, reportRaises: bool)

  /** Every exception meets a branch that finishes the task. */
  predicate Guarded(b: Behaviour) {
    !b.AnnounceRaises? && !b.StartRaises?
  }

  /** An exception leaves `_download_one`, whether or not the task was finished first. */
  predicate RaisesOut(b: Behaviour) {
    !Guarded(b) || ((b.LoadRaises? || b.Downloads?) && b.reportRaises)
  }

  /** Inside a download only this sn is started again or updated in place. */
  predicate InnerOp(op: Op, sn: int) {
    (op.Start? || op.Edits()) && op.sn == sn
  }

  predicate WellBehaved(b: Behaviour, sn: int) {
    b.Downloads? ==> forall k :: 0 <= k < |b.inner| ==> InnerOp(b.inner[k], sn)
  }

  const WAITING: Status := Other("等待下載")

  function Announcement(sn: int, preview: string, owner: Option<string>, now: int): Op {
    Start(sn, preview, WAITING, Meta(None, None, None), owner, Some("animad"), None, now)
  }

  /** The bus calls of one `_download_one` after its announcement, in order. */
  function CallsAfterAnnouncement(sn: int, b: Behaviour, finishedAt: int): seq<Op> {
    match b
    case LoadRaises(_) => [UpdateStatus(sn, Failed), Finish(sn, finishedAt)]
    case Downloads(inner, ending, _) =>
      inner + (if ending.RaisesFailure? then [UpdateStatus(sn, Failed)] else []) + [Finish(sn, finishedAt)]
    case _ => []
  }

  function WorkerOps(announcement: Op, b: Behaviour, finishedAt: int): seq<Op>
    requires announcement.Start?
  {
    if b.SkippedInQueue? then [Finish(announcement.sn, finishedAt)]
    else if b.AnnounceRaises? then []
    else [announcement] + CallsAfterAnnouncement(announcement.sn, b, finishedAt)
  }

  /** `sn` was announced in state `s`, and `mid` came since without ending it. */
  ghost predicate Waits(s: BusState, announced: Op, mid: seq<Op>, sn: int) {
    FreshStart(s, announced) && announced.sn == sn && NothingEnds(sn, mid)
  }

  class Runner {
    const bus: Bus.ProgressBus

    constructor (bus: Bus.ProgressBus)
      ensures this.bus == bus
    {
      this.bus := bus;
    }

    method Announce(sn: int, preview: string, owner: Option<string>, now: int)
      modifies bus, bus.history, bus.mirror
      ensures bus.State() == Apply(old(bus.State()), Announcement(sn, preview, owner, now))
      ensures Announcement(sn, preview, owner, now) ==
        Op.Start(sn, preview, Other("等待下載"), Meta(None, None, None), owner, Some("animad"), None, now)
    {
      bus.Start(sn, preview, WAITING, Meta(None, None, None), owner, Some("animad"), None, now);
    }

    /** One in-place call from inside `anime.download`. */
    method PerformInner(op: Op)
      requires op.Start? || op.Edits()
      modifies bus, bus.history, bus.mirror
      ensures bus.State() == Apply(old(bus.State()), op)
    {
      match op
      case Start(sn, f, st, m, o, so, ex, now) => bus.Start(sn, f, st, m, o, so, ex, now);
      case UpdateRate(sn, r) => bus.UpdateRate(sn, r);
      case UpdateStatus(sn, st) => bus.UpdateStatus(sn, st);
      case UpdateStats(sn, sp, e, r) => bus.UpdateStats(sn, sp, e, r);
      case UpdateMetadata(sn, m, f) => bus.UpdateMetadata(sn, m, f);
      case UpdateResolution(sn, r) => bus.UpdateResolution(sn, r);
      case MarkRetry(sn) => bus.MarkRetry(sn);
      case Cancel(sn) => var _ := bus.Cancel(sn);
      case SetCooldown(sn, u) => bus.SetCooldown(sn, u);
      case ClearCooldown(sn) => bus.ClearCooldown(sn);
    }

    method PerformAll(ops: seq<Op>)
      requires forall k :: 0 <= k < |ops| ==> ops[k].Start? || ops[k].Edits()
      modifies bus, bus.history, bus.mirror
      ensures bus.State() == Run(old(bus.State()), ops)
    {
      for i := 0 to |ops|
        invariant bus.State() == Run(old(bus.State()), ops[..i])
      {
        assert ops[..i + 1][..i] == ops[..i];
        PerformInner(ops[i]);
      }
      assert ops[..|ops|] == ops;
    }

    /** `_download_one` with get_info off, announcing at `startedAt` and finishing at `finishedAt`. A task
        that waits since its announcement is skipped exactly when it was cancelled. `raised` tells that
        an exception left the method. */
    method DownloadOne(sn: int, preview: string, owner: Option<string>, b: Behaviour, startedAt: int, finishedAt: int)
      returns (raised: bool)
      requires WellBehaved(b, sn) && b != SkippedInQueue
      modifies bus, bus.history, bus.mirror
      ensures sn in old(bus.entries) && old(bus.entries)[sn].cancel == Signal(true) ==>
        bus.State() == Run(old(bus.State()), [Op.Finish(sn, finishedAt)]) && !raised
      ensures !(sn in old(bus.entries) && old(bus.entries)[sn].cancel == Signal(true)) ==>
        && bus.State() ==
             Run(old(bus.State()), WorkerOps(Announcement(sn, preview, owner, startedAt), b, finishedAt))
        && (raised <==> RaisesOut(b))
      ensures forall s, announced, mid ::
        Waits(s, announced, mid, sn) && old(bus.State()) == Run(Apply(s, announced), mid) ==>
          bus.State() ==
            Run(old(bus.State()), if Cancels(mid, sn) > 0 then [Op.Finish(sn, finishedAt)]
                                  else WorkerOps(Announcement(sn, preview, owner, startedAt), b, finishedAt))
    {
      ghost var s0, first := bus.State(), Announcement(sn, preview, owner, startedAt);
      forall s, announced, mid | Waits(s, announced, mid, sn) && s0 == Run(Apply(s, announced), mid)
        ensures (sn in s0.entries && s0.entries[sn].cancel == Signal(true)) <==> Cancels(mid, sn) > 0
      {
        SkipsIffCancelled(s, announced, mid, finishedAt);
      }
      if sn in bus.entries && bus.entries[sn].cancel == Signal(true) {
        bus.Finish(sn, finishedAt);
        RunOne(s0, Op.Finish(sn, finishedAt));
        return false;
      }
      if b.AnnounceRaises? {
        return true;
      }
      Announce(sn, preview, owner, startedAt);
      RunOne(s0, first);
      raised := LoadAndDownload(sn, b, finishedAt);
      RunSplits(s0, [first], CallsAfterAnnouncement(sn, b, finishedAt));
    }

    method LoadAndDownload(sn: int, b: Behaviour, finishedAt: int) returns (raised: bool)
      requires WellBehaved(b, sn) && !b.SkippedInQueue? && !b.AnnounceRaises?
      modifies bus, bus.history, bus.mirror
      ensures bus.State() == Run(old(bus.State()), CallsAfterAnnouncement(sn, b, finishedAt))
      ensures raised <==> RaisesOut(b)
    {
      if b.StartRaises? {
        return true;
      }
      if b.LoadRaises? {
        FailAndFinish(sn, finishedAt);
        return b.reportRaises;
      }
      Download(sn, b.inner, b.ending, finishedAt);
      return b.reportRaises;
    }

    method FailAndFinish(sn: int, finishedAt: int)
      modifies bus, bus.history, bus.mirror
      ensures bus.State() == Run(old(bus.State()), [UpdateStatus(sn, Failed), Op.Finish(sn, finishedAt)])
    {
      ghost var s := bus.State();
      bus.UpdateStatus(sn, Failed);
      bus.Finish(sn, finishedAt);
      RunOne(s, UpdateStatus(sn, Failed));
      RunMore(s, [UpdateStatus(sn, Failed)], Op.Finish(sn, finishedAt));
      assert [UpdateStatus(sn, Failed)] + [Op.Finish(sn, finishedAt)]
          == [UpdateStatus(sn, Failed), Op.Finish(sn, finishedAt)];
    }

    /** The guarded part: `anime.download`, its except branches and the finally block. */
    method Download(sn: int, inner: seq<Op>, ending: Ending, finishedAt: int)
      requires forall k :: 0 <= k < |inner| ==> InnerOp(inner[k], sn)
      modifies bus, bus.history, bus.mirror
      ensures bus.State() == Run(old(bus.State()),
        inner + (if ending.RaisesFailure? then [UpdateStatus(sn, Failed)] else []) + [Op.Finish(sn, finishedAt)])
    {
      ghost var s := bus.State();
      PerformAll(inner);
      if ending.RaisesFailure? {
        FailAndFinish(sn, finishedAt);
        RunSplits(s, inner, [UpdateStatus(sn, Failed), Op.Finish(sn, finishedAt)]);
        assert inner + [UpdateStatus(sn, Failed), Op.Finish(sn, finishedAt)]
            == inner + [UpdateStatus(sn, Failed)] + [Op.Finish(sn, finishedAt)];
      } else {
        bus.Finish(sn, finishedAt);
        RunMore(s, inner, Op.Finish(sn, finishedAt));
        assert inner + [] == inner;
      }
    }
  }

  // ------------------------------------------------------------------ every interleaving

  /** One bus call in the merged trace; `worker` is the sn of the `_download_one` that made it,
      or None for any other thread: cancel requests, their timers, pre-parses, snapshots. */
  datatype Event = Event(worker: Option<int>, op: Op)

  function Ops(trace: seq<Event>): seq<Op> {
    seq(|trace|, i requires 0 <= i < |trace| => trace[i].op)
  }

  /** The calls of one worker, in the order they happened. */
  function Projected(trace: seq<Event>, sn: int): seq<Op> {
    if trace == [] then []
    else
      var e := trace[|trace| - 1];
      Projected(trace[..|trace| - 1], sn) + if e.worker == Some(sn) then [e.op] else []
  }

  /** Other threads do anything but start or force-finish one of the queued sns. */
  predicate Outsider(op: Op, sns: set<int>) {
    !op.ForceFinish? && (op.Start? ==> op.sn !in sns)
  }

  /** A worker only calls the bus for its own sn, and never `force_finish`. */
  predicate OwnCall(op: Op, sn: int) {
    (op.Finish? && op.sn == sn) || InnerOp(op, sn)
  }

  predicate Merged(trace: seq<Event>, sns: set<int>) {
    forall k :: 0 <= k < |trace| ==>
      if trace[k].worker.Some? then trace[k].worker.value in sns && OwnCall(trace[k].op, trace[k].worker.value)
      else Outsider(trace[k].op, sns)
  }

  lemma {:induction false} UnforcedNeverOrphans(s: BusState, ops: seq<Op>)
    requires forall k :: 0 <= k < |ops| ==> !ops[k].ForceFinish?
    ensures NeverOrphans(s, ops)
  {
    if ops != [] {
      UnforcedNeverOrphans(s, ops[..|ops| - 1]);
    }
  }

  /** Once a worker's last call was `finish`, its task stays finished, whoever else calls. */
  lemma {:induction false} FinishedWorkerStays(s: BusState, trace: seq<Event>, sns: set<int>, sn: int)
    requires Merged(trace, sns) && sn in sns
    requires Projected(trace, sn) != [] && Projected(trace, sn)[|Projected(trace, sn)| - 1].Finish?
    ensures !Run(s, Ops(trace)).ActiveEntry(sn)
  {
    var init, e := trace[..|trace| - 1], trace[|trace| - 1];
    assert Ops(trace)[..|trace| - 1] == Ops(init);
    if e.worker != Some(sn) {
      FinishedWorkerStays(s, init, sns, sn);
      assert e.op.Prune? || e.op.sn != sn || !e.op.Start?;
      StaysEnded(Run(s, Ops(init)), e.op, sn);
    }
  }

  lemma StaysEnded(s: BusState, op: Op, sn: int)
    requires !s.ActiveEntry(sn) && (op.Prune? || op.sn != sn || !op.Start?)
    ensures !Apply(s, op).ActiveEntry(sn)
  {
    if op.Start? {
      assert Started(s, op).ActiveEntry(sn) == s.ActiveEntry(sn);
    } else if op.Edits() {
      EditKeepsEnded(s, op, sn);
    } else {
    }
  }

  lemma EditKeepsEnded(s: BusState, op: Op, sn: int)
    requires !s.ActiveEntry(sn) && op.Edits()
    ensures !AfterEdit(s, op).ActiveEntry(sn)
  {
  }

  lemma LastCallIsFinish(announcement: Op, b: Behaviour, finishedAt: int)
    requires announcement.Start? && Guarded(b)
    ensures var ops := WorkerOps(announcement, b, finishedAt);
      ops != [] && ops[|ops| - 1] == Finish(announcement.sn, finishedAt)
  {
  }

  /** `_download_many` on distinct sns. `announcing` are all calls up to its last announcement, its own
      and those of other threads. However its workers and all other threads interleave after that, when
      it is over every guarded sn has no unfinished entry and no open row, and each row opened for it on
      the way is closed with a terminal status. */
  lemma DownloadManyClosesEverything(s: BusState, announcing: seq<Op>, trace: seq<Event>, sns: set<int>,
                                     behaviour: map<int, Behaviour>, announced: map<int, Op>, finishedAt: map<int, int>,
                                     sn: int)
    requires Bijection(s)
    requires forall k :: 0 <= k < |announcing| ==> !announcing[k].ForceFinish?
    requires Merged(trace, sns) && sns <= behaviour.Keys && sns <= announced.Keys && sns <= finishedAt.Keys
    requires forall n :: n in sns ==> announced[n].Start? && announced[n].sn == n
    requires forall n :: n in sns ==> Projected(trace, n) == WorkerOps(announced[n], behaviour[n], finishedAt[n])
    requires sn in sns && Guarded(behaviour[sn])
    ensures var t := Run(Run(s, announcing), Ops(trace));
      && !t.ActiveEntry(sn)
      && |t.Rows()| >= |s.Rows()|
      && (forall id :: 0 <= id < |t.Rows()| && t.Rows()[id].sn == sn ==> !t.Rows()[id].Open())
      && (forall id :: |s.Rows()| <= id < |t.Rows()| && t.Rows()[id].sn == sn ==>
            t.Rows()[id].finalStatus in ALREADY_TERMINAL)
  {
    var s1 := Run(s, announcing);
    var t := Run(s1, Ops(trace));
    UnforcedNeverOrphans(s, announcing);
    BijectionRun(s, announcing);
    UnforcedNeverOrphans(s1, Ops(trace));
    BijectionRun(s1, Ops(trace));
    LastCallIsFinish(announced[sn], behaviour[sn], finishedAt[sn]);
    FinishedWorkerStays(s1, trace, sns, sn);
    BusRowsStayBusClosed(s, announcing, |s.Rows()|);
    BusRowsStayBusClosed(s1, Ops(trace), |s.Rows()|);
  }

  /** One announced task on its own: `_download_one` closes it exactly when it does not raise
      outside its try blocks. */
  lemma DownloadOneClosesIffGuarded(s: BusState, announcement: Op, b: Behaviour, finishedAt: int)
    requires Bijection(s) && announcement.Start? && s.ActiveEntry(announcement.sn)
    requires WellBehaved(b, announcement.sn)
    ensures Run(s, WorkerOps(announcement, b, finishedAt)).ActiveEntry(announcement.sn) <==> !Guarded(b)
  {
    var ops := WorkerOps(announcement, b, finishedAt);
    if Guarded(b) {
      LastCallIsFinish(announcement, b, finishedAt);
    } else if b.StartRaises? {
      RunOne(s, announcement);
    }
  }

  // ------------------------------------------------------------------ what becomes of an announced task

  /** A waiting task that was announced, and that nothing has ended, is skipped exactly when it was
      cancelled in the meantime: then `_download_one` does nothing but finish it, and its row is closed
      with the last status of its trace. */
  lemma {:induction false} SkipsIffCancelled(s: BusState, announced: Op, mid: seq<Op>, finishedAt: int)
    requires FreshStart(s, announced) && NothingEnds(announced.sn, mid)
    ensures var t := Run(Apply(s, announced), mid);
      && announced.sn in t.entries
      && (t.entries[announced.sn].cancel == Signal(true) <==> Cancels(mid, announced.sn) > 0)
      && var u, id := Run(t, [Finish(announced.sn, finishedAt)]), |s.Rows()|;
         && id < |u.Rows()| && !u.ActiveEntry(announced.sn)
         && u.Rows()[id].finalStatus == Coerced(Last(mid, StatusWritten(announced.sn), announced.status))
         && u.Rows()[id].finishedAt == Some(finishedAt)
  {
    OpenEntryIsTheTrace(s, announced, mid);
    OpenTaskFollowsTrace(s, announced, mid);
    var t, close := Run(Apply(s, announced), mid), Finish(announced.sn, finishedAt);
    RunOne(t, close);
    ClosedRowIsTheTrace(s, announced, mid, close, []);
    assert Run(Apply(t, close), []) == Apply(t, close);
  }

  /** The calls of a worker before its last `finish`. */
  function BeforeFinish(again: Op, b: Behaviour): seq<Op>
    requires again.Start?
  {
    [again] + (if b.Downloads? then b.inner else [])
    + if b.LoadRaises? || (b.Downloads? && b.ending.RaisesFailure?) then [UpdateStatus(again.sn, Failed)] else []
  }

  lemma WorkerOpsEnd(again: Op, b: Behaviour, finishedAt: int)
    requires again.Start? && Guarded(b) && !b.SkippedInQueue?
    ensures WorkerOps(again, b, finishedAt) == BeforeFinish(again, b) + [Finish(again.sn, finishedAt)]
  {
  }

  lemma NoneEnds(mid: seq<Op>, again: Op, b: Behaviour)
    requires again.Start? && NothingEnds(again.sn, mid) && WellBehaved(b, again.sn)
    ensures NothingEnds(again.sn, mid + BeforeFinish(again, b))
  {
  }

  lemma {:induction false} RowAfterClose(s: BusState, announced: Op, ops: seq<Op>, finishedAt: int)
    requires FreshStart(s, announced) && NothingEnds(announced.sn, ops)
    ensures var u, id := Run(Apply(s, announced), ops + [Finish(announced.sn, finishedAt)]), |s.Rows()|;
      && id < |u.Rows()| && u.Rows()[id].finishedAt == Some(finishedAt)
      && u.Rows()[id].finalStatus == Coerced(Last(ops, StatusWritten(announced.sn), announced.status))
  {
    var close := Finish(announced.sn, finishedAt);
    RunMore(Apply(s, announced), ops, close);
    ClosedRowIsTheTrace(s, announced, ops, close, []);
    var u := Apply(Run(Apply(s, announced), ops), close);
    assert Run(u, []) == u;
  }

  /** The status a worker's task ends with: a failure to load or to download is '失敗'; otherwise it is
      the last status written up to the end of the download, coerced. */
  lemma {:induction false} WorkerClosesWith(s: BusState, announced: Op, mid: seq<Op>, again: Op, b: Behaviour,
                                             finishedAt: int)
    requires FreshStart(s, announced) && NothingEnds(announced.sn, mid)
    requires again.Start? && again.sn == announced.sn && Guarded(b) && !b.SkippedInQueue?
    requires WellBehaved(b, announced.sn)
    ensures var u, id := Run(Run(Apply(s, announced), mid), WorkerOps(again, b, finishedAt)), |s.Rows()|;
      && id < |u.Rows()|
      && u.Rows()[id].finishedAt == Some(finishedAt)
      && (b.LoadRaises? || b.ending.RaisesFailure? ==> u.Rows()[id].finalStatus == Failed)
      && (b.Downloads? && !b.ending.RaisesFailure? ==>
            u.Rows()[id].finalStatus ==
              Coerced(Last(mid + [again] + b.inner, StatusWritten(announced.sn), announced.status)))
  {
    var ops, close := mid + BeforeFinish(again, b), [Finish(again.sn, finishedAt)];
    WorkerOpsEnd(again, b, finishedAt);
    RunSplits(Apply(s, announced), mid, WorkerOps(again, b, finishedAt));
    assert mid + (BeforeFinish(again, b) + close) == ops + close;
    NoneEnds(mid, again, b);
    RowAfterClose(s, announced, ops, finishedAt);
    LastOfWorker(mid, again, b, announced.status);
  }

  lemma {:induction false} LastOfWorker(mid: seq<Op>, again: Op, b: Behaviour, init: Status)
    requires again.Start? && Guarded(b) && !b.SkippedInQueue?
    ensures var last := Last(mid + BeforeFinish(again, b), StatusWritten(again.sn), init);
      && (b.LoadRaises? || b.ending.RaisesFailure? ==> last == Failed)
      && (b.Downloads? && !b.ending.RaisesFailure? ==>
            last == Last(mid + [again] + b.inner, StatusWritten(again.sn), init))
  {
    var ops := mid + BeforeFinish(again, b);
    if b.LoadRaises? || b.ending.RaisesFailure? {
      assert ops[|ops| - 1] == UpdateStatus(again.sn, Failed);
    } else {
      assert ops == mid + [again] + b.inner;
    }
  }
}
