/** The values behind `ProgressBus`: entries, history rows, the mirror, and one
    function per public method that says what the whole state is afterwards.
    Every method is taken as one atomic step here; ProgressSteps.dfy splits them. */
module ProgressModel {
  import opened Wrappers

  /** Status strings the bus distinguishes; `Other` holds every other string and none of these.
      Complete is '下載完成', AllDone '任務完成', Cancelled '已取消', Interrupted '中斷',
      Failed '失敗', Restarting '失敗! 重啓中', InProgress the ledger sentinel
      '(in_progress)', LandingFailed '下載失敗'. */
  datatype Status =
    | Complete | AllDone | Cancelled | Interrupted | Failed
    | Restarting | InProgress | LandingFailed | Other(text: string)

  const TERMINAL_STATUSES: set<Status> := {Complete, AllDone}

  const ALREADY_TERMINAL: set<Status> := {Complete, AllDone, Cancelled, Interrupted, Failed}

  const COMPLETION_TTL: int := 7 * 86400

  /** The status `finish` writes: anything not already terminal died mid-flight. */
  function Coerced(status: Status): Status {
    if status in ALREADY_TERMINAL then status else Interrupted
  }

  datatype Meta = Meta(bangumiName: Option<string>, episode: Option<string>, resolution: Option<string>) {
    /** `newer` where it says something, this value elsewhere. */
    function Overlaid(newer: Meta): Meta {
      Meta(newer.bangumiName.Or(bangumiName), newer.episode.Or(episode), newer.resolution.Or(resolution))
    }
  }

  /** The private cancel event of an entry. */
  datatype CancelSignal = NoSignal | Signal(isSet: bool)

  datatype TaskProgress = TaskProgress(
    rate: real,
    status: Status,
    filename: string,
    meta: Meta,
    speed: Option<real>,
    eta: Option<int>,
    retries: nat,
    startedAt: Option<int>,
    finishedAt: Option<int>,
    ownerId: Option<string>,
    source: Option<string>,
    externalId: Option<string>,
    cooldownUntil: Option<int>,
    cancel: CancelSignal)
  {
    predicate Active() { finishedAt.None? }

    /** What leaves the process: the entry without its cancel event. */
    function Stripped(): TaskProgress { this.(cancel := NoSignal) }
  }

  /** The card agrees with the entry in every field and holds no event. */
  predicate AgreesWithoutEvent(card: TaskProgress, e: TaskProgress) {
    && card.rate == e.rate && card.status == e.status && card.filename == e.filename
    && card.meta.bangumiName == e.meta.bangumiName && card.meta.episode == e.meta.episode
    && card.meta.resolution == e.meta.resolution
    && card.speed == e.speed && card.eta == e.eta && card.retries == e.retries
    && card.startedAt == e.startedAt && card.finishedAt == e.finishedAt
    && card.ownerId == e.ownerId && card.source == e.source && card.externalId == e.externalId
    && card.cooldownUntil == e.cooldownUntil
    && card.cancel == NoSignal
  }

  datatype HistoryRow = HistoryRow(
    sn: int,
    ownerId: Option<string>,
    filename: string,
    meta: Meta,
    finalStatus: Status,
    startedAt: Option<int>,
    finishedAt: Option<int>,
    retries: nat,
    source: Option<string>,
    externalId: Option<string>)
  {
    predicate Open() { finalStatus == InProgress }
  }

  /** The Redis side: one hash per sn, and the sorted set that lists active sns. */
  datatype Mirror = Mirror(cards: map<int, TaskProgress>, active: set<int>)

  /** One process's bus together with what it writes to. A row id is the row's position
      in the ledger. `timers` holds one element per delayed `finish` that `cancel` scheduled. */
  datatype BusState = BusState(
    entries: map<int, TaskProgress>,
    rowIds: map<int, nat>,
    timers: multiset<int>,
    ledger: Option<seq<HistoryRow>>,
    mirror: Option<Mirror>)
  {
    function Rows(): seq<HistoryRow> { ledger.GetOr([]) }

    predicate ActiveEntry(sn: int) { sn in entries && entries[sn].Active() }
  }

  datatype Op =
    | Start(sn: int, filename: string, status: Status, meta: Meta, ownerId: Option<string>,
            source: Option<string>, externalId: Option<string>, now: int)
    | UpdateRate(sn: int, rate: real)
    | UpdateStatus(sn: int, status: Status)
    | UpdateStats(sn: int, speed: Option<real>, eta: Option<int>, newRate: Option<real>)
    | UpdateMetadata(sn: int, meta: Meta, newFilename: Option<string>)
    | UpdateResolution(sn: int, resolution: string)
    | MarkRetry(sn: int)
    | Cancel(sn: int)
    | SetCooldown(sn: int, until: int)
    | ClearCooldown(sn: int)
    | Finish(sn: int, now: int)
    | TimerFires(sn: int, now: int)
    | ForceFinish(sn: int, status: Status, forcedFilename: Option<string>, source: Option<string>, now: int)
    | Prune(now: int)
  {
    /** The in-place updates: silent no-ops on an sn nobody tracks. */
    predicate Edits() {
      UpdateRate? || UpdateStatus? || UpdateStats? || UpdateMetadata? || UpdateResolution? ||
      MarkRetry? || Cancel? || SetCooldown? || ClearCooldown?
    }

    /** The operations that may end the task of `sn`. */
    predicate Ends(other: int) {
      (Finish? || TimerFires? || ForceFinish?) && sn == other
    }
  }

  /** The entry after an in-place update. */
  function Edited(op: Op, e: TaskProgress): TaskProgress
    requires op.Edits()
  {
    match op
    case UpdateRate(_, rate) => e.(rate := rate)
    case UpdateStatus(_, status) => e.(status := status)
    case UpdateStats(_, speed, eta, rate) =>
      e.(speed := speed.Or(e.speed), eta := eta.Or(e.eta), rate := rate.GetOr(e.rate))
    case UpdateMetadata(_, meta, filename) =>
      e.(meta := e.meta.Overlaid(meta), filename := filename.GetOr(e.filename))
    case UpdateResolution(_, resolution) => e.(meta := e.meta.(resolution := Some(resolution)))
    case MarkRetry(_) => e.(retries := e.retries + 1, status := Restarting)
    case Cancel(_) =>
      e.(status := Cancelled, cancel := if e.cancel.Signal? then Signal(true) else NoSignal)
    case SetCooldown(_, until) => e.(cooldownUntil := Some(until))
    case ClearCooldown(_) => e.(cooldownUntil := None)
  }

  /** `start` on an sn that already has an entry: fields are refreshed, retries are kept. */
  function Restarted(op: Op, e: TaskProgress): TaskProgress
    requires op.Start?
  {
    e.(status := op.status, filename := op.filename, rate := 0.0, speed := None, eta := None,
       cooldownUntil := None, meta := e.meta.Overlaid(op.meta))
  }

  function FreshEntry(op: Op): TaskProgress
    requires op.Start?
  {
    TaskProgress(0.0, op.status, op.filename, op.meta, None, None, 0, Some(op.now), None,
                 op.ownerId, op.source, op.externalId, None, Signal(false))
  }

  function FreshRow(op: Op): HistoryRow
    requires op.Start?
  {
    HistoryRow(op.sn, op.ownerId, op.filename, op.meta, InProgress, Some(op.now), None, 0,
               op.source, op.externalId)
  }

  function FinishedEntry(e: TaskProgress, now: int): TaskProgress {
    var status := Coerced(e.status);
    e.(status := status, rate := if status in TERMINAL_STATUSES then 1.0 else e.rate, finishedAt := Some(now))
  }

  /** `record_finish`: a missing id updates nothing, `None` values are not written. */
  function RowFinished(rows: seq<HistoryRow>, id: nat, status: Status, now: int, retries: nat, meta: Meta,
                       newFilename: Option<string>): (r: seq<HistoryRow>)
    ensures |r| == |rows|
  {
    if id < |rows| then
      rows[id := rows[id].(finalStatus := status, finishedAt := Some(now), retries := retries,
                           meta := rows[id].meta.Overlaid(meta), filename := newFilename.GetOr(rows[id].filename))]
    else rows
  }

  /** The row as `finish` closes it, from the finished entry. */
  function RowClosed(rows: seq<HistoryRow>, id: nat, e: TaskProgress, now: int): (r: seq<HistoryRow>)
    ensures |r| == |rows|
  {
    RowFinished(rows, id, e.status, now, e.retries, e.meta, Some(e.filename))
  }

  function Written(m: Mirror, sn: int, e: TaskProgress): Mirror {
    Mirror(m.cards[sn := e.Stripped()], if e.Active() then m.active + {sn} else m.active - {sn})
  }

  /** Both publish hooks: nothing without a mirror or without an entry. */
  function Published(s: BusState, sn: int): BusState {
    s.(mirror := if s.mirror.None? || sn !in s.entries then s.mirror
                 else Some(Written(s.mirror.value, sn, s.entries[sn])))
  }

  /** What `start` leaves before it publishes. */
  function Started(s: BusState, op: Op): BusState
    requires op.Start?
  {
    if op.sn in s.rowIds || s.ActiveEntry(op.sn) then
      if op.sn in s.entries then s.(entries := s.entries[op.sn := Restarted(op, s.entries[op.sn])]) else s
    else
      var t := s.(entries := s.entries[op.sn := FreshEntry(op)]);
      if t.ledger.None? then t
      else t.(rowIds := t.rowIds[op.sn := |t.ledger.value|], ledger := Some(t.ledger.value + [FreshRow(op)]))
  }

  function AfterStart(s: BusState, op: Op): BusState
    requires op.Start?
  {
    Published(Started(s, op), op.sn)
  }

  function AfterFinish(s: BusState, sn: int, now: int): BusState {
    if !s.ActiveEntry(sn) then s
    else
      var e := FinishedEntry(s.entries[sn], now);
      var ledger :=
        if s.ledger.Some? && sn in s.rowIds then Some(RowClosed(s.ledger.value, s.rowIds[sn], e, now)) else s.ledger;
      Published(s.(entries := s.entries[sn := e], rowIds := s.rowIds - {sn}, ledger := ledger), sn)
  }

  function ForcedEntry(op: Op, prior: Option<TaskProgress>): TaskProgress
    requires op.ForceFinish?
  {
    var e := match prior
      case None => TaskProgress(0.0, op.status, op.forcedFilename.GetOr(""), Meta(None, None, None), None, None, 0,
                                None, None, None, op.source, None, None, NoSignal)
      case Some(p) => p.(status := op.status, filename := op.forcedFilename.GetOr(p.filename));
    e.(rate := if op.status in TERMINAL_STATUSES then 1.0 else e.rate, finishedAt := Some(op.now))
  }

  function AfterForceFinish(s: BusState, op: Op): BusState
    requires op.ForceFinish?
  {
    if op.sn in s.entries && !s.entries[op.sn].Active() then s
    else
      var prior := if op.sn in s.entries then Some(s.entries[op.sn]) else None;
      Published(s.(entries := s.entries[op.sn := ForcedEntry(op, prior)]), op.sn)
  }

  predicate Stale(e: TaskProgress, now: int) {
    e.finishedAt.Some? && e.finishedAt.value < now - COMPLETION_TTL
  }

  function AfterPrune(s: BusState, now: int): BusState {
    s.(entries := map sn | sn in s.entries && !Stale(s.entries[sn], now) :: s.entries[sn])
  }

  function AfterEdit(s: BusState, op: Op): BusState
    requires op.Edits()
  {
    if op.sn !in s.entries then s
    else
      Published(s.(entries := s.entries[op.sn := Edited(op, s.entries[op.sn])],
                   timers := s.timers + if op.Cancel? then multiset{op.sn} else multiset{}), op.sn)
  }

  function Apply(s: BusState, op: Op): BusState {
    match op
    case Start(_, _, _, _, _, _, _, _) => AfterStart(s, op)
    case Finish(sn, now) => AfterFinish(s, sn, now)
    case TimerFires(sn, now) =>
      if sn in s.timers then AfterFinish(s.(timers := s.timers - multiset{sn}), sn, now) else s
    case ForceFinish(_, _, _, _, _) => AfterForceFinish(s, op)
    case Prune(now) => AfterPrune(s, now)
    case _ => AfterEdit(s, op)
  }

  /** The state after a whole trace of atomic calls, from any threads in any order. */
  function Run(s: BusState, ops: seq<Op>): BusState {
    if ops == [] then s else Apply(Run(s, ops[..|ops| - 1]), ops[|ops| - 1])
  }

  lemma {:induction false} RunSplits(s: BusState, a: seq<Op>, b: seq<Op>)
    ensures Run(s, a + b) == Run(Run(s, a), b)
  {
    if b == [] {
      assert a + b == a;
    } else {
      var n := |b| - 1;
      RunSplits(s, a, b[..n]);
      RunMore(s, a + b[..n], b[n]);
      assert a + b[..n] + [b[n]] == a + b;
    }
  }

  lemma RunOne(s: BusState, op: Op)
    ensures Run(s, [op]) == Apply(s, op)
  {
    assert [op][..0] == [];
    assert Run(s, []) == s;
  }

  lemma RunMore(s: BusState, ops: seq<Op>, op: Op)
    ensures Run(s, ops + [op]) == Apply(Run(s, ops), op)
  {
    assert (ops + [op])[..|ops|] == ops;
  }

  // ------------------------------------------------------------------ ledger maintenance

  /** `mark_interrupted_on_boot` on one row. */
  function Interrupt(row: HistoryRow, now: int): HistoryRow {
    if row.Open() then row.(finalStatus := Interrupted, finishedAt := Some(now)) else row
  }

  /** `normalize_legacy_statuses` on one row. */
  function Normalize(row: HistoryRow): HistoryRow {
    if row.finalStatus !in ALREADY_TERMINAL + {InProgress} && row.finishedAt.Some?
    then row.(finalStatus := Interrupted)
    else row
  }

  function InterruptAll(rows: seq<HistoryRow>, now: int): (r: seq<HistoryRow>)
  {
    seq(|rows|, i requires 0 <= i < |rows| => Interrupt(rows[i], now))
  }

  function NormalizeAll(rows: seq<HistoryRow>): (r: seq<HistoryRow>)
  {
    seq(|rows|, i requires 0 <= i < |rows| => Normalize(rows[i]))
  }

  /** The process dies and a new one boots: only the ledger and the mirror survive. */
  function Rebooted(s: BusState, now: int): BusState {
    BusState(map[], map[], multiset{},
             if s.ledger.Some? then Some(InterruptAll(s.ledger.value, now)) else None,
             s.mirror)
  }
}
