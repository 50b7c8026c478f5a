/** `ProgressBus`, `TaskHistoryRepository` and `RedisProgressMirror` as the objects they are:
    each public method changes fields in place and leaves exactly the state that
    ProgressModel.Apply gives for the operation. */
module ProgressBus {
  import opened Wrappers
  import opened ProgressModel

  /** The `task_history` table. Ids are handed out in order and rows are never removed. */
  class TaskHistoryRepository {
    var rows: seq<HistoryRow>

    constructor ()
      ensures rows == []
    {
      rows := [];
    }

    method RecordStart(row: HistoryRow) returns (id: nat)
      modifies this
      ensures id == |old(rows)| && rows == old(rows) + [row]
    {
      id := |rows|;
      rows := rows + [row];
    }

    method RecordFinish(id: nat, status: Status, now: int, retries: nat, meta: Meta, filename: Option<string>)
      modifies this
      ensures rows == RowFinished(old(rows), id, status, now, retries, meta, filename)
    {
      if id < |rows| {
        var row := rows[id].(finalStatus := status, finishedAt := Some(now), retries := retries);
        if meta.bangumiName.Some? { row := row.(meta := row.meta.(bangumiName := meta.bangumiName)); }
        if meta.episode.Some? { row := row.(meta := row.meta.(episode := meta.episode)); }
        if meta.resolution.Some? { row := row.(meta := row.meta.(resolution := meta.resolution)); }
        if filename.Some? { row := row.(filename := filename.value); }
        rows := rows[id := row];
      }
    }

    method MarkInterruptedOnBoot(now: int) returns (count: nat)
      modifies this
      ensures rows == InterruptAll(old(rows), now)
      ensures count == |set i | 0 <= i < |old(rows)| && old(rows)[i].Open()|
    {
      var open := set i | 0 <= i < |rows| && rows[i].Open();
      count := |open|;
      rows := InterruptAll(rows, now);
    }

    method NormalizeLegacyStatuses() returns (count: nat)
      modifies this
      ensures rows == NormalizeAll(old(rows))
      ensures count == |set i | 0 <= i < |old(rows)| && Normalize(old(rows)[i]) != old(rows)[i]|
    {
      var touched := set i | 0 <= i < |rows| && Normalize(rows[i]) != rows[i];
      count := |touched|;
      rows := NormalizeAll(rows);
    }

    /** The newest still-open row of `sn`, by id. */
    method GetLatestInProgressBySn(sn: int) returns (id: Option<nat>)
      ensures id.Some? ==> id.value < |rows| && rows[id.value].sn == sn && rows[id.value].Open()
      ensures forall i :: id.GetOr(0) <= i < |rows| && rows[i].sn == sn && rows[i].Open() ==> id == Some(i)
    {
      var i := |rows|;
      while i > 0
        invariant 0 <= i <= |rows|
        invariant forall j :: i <= j < |rows| ==> rows[j].sn != sn || !rows[j].Open()
      {
        i := i - 1;
        if rows[i].sn == sn && rows[i].Open() {
          return Some(i);
        }
      }
      return None;
    }
  }

  class RedisProgressMirror {
    var cards: map<int, TaskProgress>
    var active: set<int>

    constructor ()
      ensures cards == map[] && active == {}
    {
      cards, active := map[], {};
    }

    ghost function Contents(): Mirror
      reads this
    {
      Mirror(cards, active)
    }

    method Publish(sn: int, e: TaskProgress)
      modifies this
      ensures Contents() == Written(old(Contents()), sn, e)
    {
      cards := cards[sn := e.Stripped()];
      if e.finishedAt.None? {
        active := active + {sn};
      } else {
        active := active - {sn};
      }
    }
  }

  class ProgressBus {
    var entries: map<int, TaskProgress>
    var rowIds: map<int, nat>
    var timers: multiset<int>
    const history: TaskHistoryRepository?
    const mirror: RedisProgressMirror?

    constructor (history: TaskHistoryRepository?, mirror: RedisProgressMirror?)
      ensures this.history == history && this.mirror == mirror
      ensures entries == map[] && rowIds == map[] && timers == multiset{}
    {
      this.history, this.mirror := history, mirror;
      entries, rowIds, timers := map[], map[], multiset{};
    }

    ghost function State(): BusState
      reads this, history, mirror
    {
      BusState(entries, rowIds, timers,
               if history == null then None else Some(history.rows),
               if mirror == null then None else Some(mirror.Contents()))
    }

    method MirrorPublish(sn: int)
      modifies mirror
      ensures State() == Published(old(State()), sn)
    {
      if mirror != null && sn in entries {
        mirror.Publish(sn, entries[sn]);
      }
    }

    method Start(sn: int, filename: string, status: Status, meta: Meta, ownerId: Option<string>,
                 source: Option<string>, externalId: Option<string>, now: int)
      modifies this, history, mirror
      ensures State() ==
        AfterStart(old(State()), Op.Start(sn, filename, status, meta, ownerId, source, externalId, now))
    {
      StartLocked(sn, filename, status, meta, ownerId, source, externalId, now);
      MirrorPublish(sn);
    }

    /** `start` up to its publish. */
    method StartLocked(sn: int, filename: string, status: Status, meta: Meta, ownerId: Option<string>,
                       source: Option<string>, externalId: Option<string>, now: int)
      modifies this, history
      ensures State() == Started(old(State()), Op.Start(sn, filename, status, meta, ownerId, source, externalId, now))
    {
      // 1: the row is still open; 2: active without a row; 3: fresh.
      var branch := if sn in rowIds then 1 else if sn in entries && entries[sn].finishedAt.None? then 2 else 3;
      if branch == 3 {
        OpenFresh(sn, TaskProgress(0.0, status, filename, meta, None, None, 0, Some(now), None,
                                   ownerId, source, externalId, None, Signal(false)));
      } else if sn in entries {
        RefreshEntry(sn, filename, status, meta);
      }
    }

    /** The inserting branch of `start`: a new entry and, with a repository, a new row. */
    method OpenFresh(sn: int, e: TaskProgress)
      modifies this, history
      ensures entries == old(entries)[sn := e] && timers == old(timers)
      ensures history == null ==> rowIds == old(rowIds)
      ensures history != null ==>
        && rowIds == old(rowIds)[sn := |old(history.rows)|]
        && history.rows == old(history.rows) +
             [HistoryRow(sn, e.ownerId, e.filename, e.meta, InProgress, e.startedAt, None, 0, e.source, e.externalId)]
    {
      entries := entries[sn := e];
      if history != null {
        var id := history.RecordStart(HistoryRow(sn, e.ownerId, e.filename, e.meta, InProgress, e.startedAt, None, 0,
                                                 e.source, e.externalId));
        rowIds := rowIds[sn := id];
      }
    }

    /** The field updates both non-inserting branches of `start` make. */
    method RefreshEntry(sn: int, filename: string, status: Status, meta: Meta)
      requires sn in entries
      modifies this`entries
      ensures forall op: Op :: op.Start? && op.filename == filename && op.status == status && op.meta == meta ==>
        entries == old(entries)[sn := Restarted(op, old(entries)[sn])]
    {
      var e := entries[sn].(status := status, filename := filename, rate := 0.0, speed := None, eta := None,
                            cooldownUntil := None);
      if meta.bangumiName.Some? { e := e.(meta := e.meta.(bangumiName := meta.bangumiName)); }
      if meta.episode.Some? { e := e.(meta := e.meta.(episode := meta.episode)); }
      if meta.resolution.Some? { e := e.(meta := e.meta.(resolution := meta.resolution)); }
      entries := entries[sn := e];
    }

    method UpdateRate(sn: int, rate: real)
      modifies this, mirror
      ensures State() == AfterEdit(old(State()), Op.UpdateRate(sn, rate))
    {
      if sn !in entries { return; }
      entries := entries[sn := entries[sn].(rate := rate)];
      MirrorPublish(sn);
    }

    method UpdateStatus(sn: int, status: Status)
      modifies this, mirror
      ensures State() == AfterEdit(old(State()), Op.UpdateStatus(sn, status))
    {
      if sn !in entries { return; }
      entries := entries[sn := entries[sn].(status := status)];
      MirrorPublish(sn);
    }

    method UpdateStats(sn: int, speed: Option<real>, eta: Option<int>, rate: Option<real>)
      modifies this, mirror
      ensures State() == AfterEdit(old(State()), Op.UpdateStats(sn, speed, eta, rate))
    {
      if sn !in entries { return; }
      var e := entries[sn];
      if speed.Some? { e := e.(speed := speed); }
      if eta.Some? { e := e.(eta := eta); }
      if rate.Some? { e := e.(rate := rate.value); }
      entries := entries[sn := e];
      MirrorPublish(sn);
    }

    method UpdateMetadata(sn: int, meta: Meta, filename: Option<string>)
      modifies this, mirror
      ensures State() == AfterEdit(old(State()), Op.UpdateMetadata(sn, meta, filename))
    {
      if sn !in entries { return; }
      var e := entries[sn];
      if meta.bangumiName.Some? { e := e.(meta := e.meta.(bangumiName := meta.bangumiName)); }
      if meta.episode.Some? { e := e.(meta := e.meta.(episode := meta.episode)); }
      if meta.resolution.Some? { e := e.(meta := e.meta.(resolution := meta.resolution)); }
      if filename.Some? { e := e.(filename := filename.value); }
      entries := entries[sn := e];
      MirrorPublish(sn);
    }

    method UpdateResolution(sn: int, resolution: string)
      modifies this, mirror
      ensures State() == AfterEdit(old(State()), Op.UpdateResolution(sn, resolution))
    {
      if sn !in entries { return; }
      var e := entries[sn];
      entries := entries[sn := e.(meta := e.meta.(resolution := Some(resolution)))];
      MirrorPublish(sn);
    }

    method MarkRetry(sn: int)
      modifies this, mirror
      ensures State() == AfterEdit(old(State()), Op.MarkRetry(sn))
    {
      if sn !in entries { return; }
      var e := entries[sn];
      entries := entries[sn := e.(retries := e.retries + 1, status := Restarting)];
      MirrorPublish(sn);
    }

    method Finish(sn: int, now: int)
      modifies this, history, mirror
      ensures State() == AfterFinish(old(State()), sn, now)
    {
      if sn !in entries || entries[sn].finishedAt.Some? { return; }
      var e := entries[sn];
      if e.status !in ALREADY_TERMINAL { e := e.(status := Interrupted); }
      if e.status in TERMINAL_STATUSES { e := e.(rate := 1.0); }
      e := e.(finishedAt := Some(now));
      entries := entries[sn := e];
      var id := if sn in rowIds then Some(rowIds[sn]) else None;
      rowIds := rowIds - {sn};
      if history != null && id.Some? {
        history.RecordFinish(id.value, e.status, now, e.retries, e.meta, Some(e.filename));
      }
      MirrorPublish(sn);
    }

    method ForceFinish(sn: int, status: Status, filename: Option<string>, source: Option<string>, now: int)
      modifies this, mirror
      ensures State() == AfterForceFinish(old(State()), Op.ForceFinish(sn, status, filename, source, now))
    {
      if sn in entries && entries[sn].finishedAt.Some? { return; }
      var e;
      if sn !in entries {
        e := TaskProgress(0.0, status, filename.GetOr(""), Meta(None, None, None), None, None, 0,
                          None, None, None, source, None, None, NoSignal);
      } else {
        e := entries[sn].(status := status);
        if filename.Some? { e := e.(filename := filename.value); }
      }
      if status in TERMINAL_STATUSES { e := e.(rate := 1.0); }
      entries := entries[sn := e.(finishedAt := Some(now))];
      MirrorPublish(sn);
    }

    method Cancel(sn: int) returns (tracked: bool)
      modifies this, mirror
      ensures State() == AfterEdit(old(State()), Op.Cancel(sn))
      ensures tracked <==> sn in old(entries)
    {
      if sn !in entries { return false; }
      var e := entries[sn].(status := Cancelled);
      if e.cancel.Signal? { e := e.(cancel := Signal(true)); }
      entries := entries[sn := e];
      MirrorPublish(sn);
      timers := timers + multiset{sn};
      return true;
    }

    /** One `threading.Timer` scheduled by `cancel` goes off. */
    method TimerFires(sn: int, now: int)
      modifies this, history, mirror
      ensures State() ==
        if sn in old(timers)
        then AfterFinish(old(State()).(timers := old(timers) - multiset{sn}), sn, now)
        else old(State())
    {
      if sn in timers {
        timers := timers - multiset{sn};
        Finish(sn, now);
      }
    }

    method SetCooldown(sn: int, until: int)
      modifies this, mirror
      ensures State() == AfterEdit(old(State()), Op.SetCooldown(sn, until))
    {
      if sn !in entries { return; }
      entries := entries[sn := entries[sn].(cooldownUntil := Some(until))];
      MirrorPublish(sn);
    }

    method ClearCooldown(sn: int)
      modifies this, mirror
      ensures State() == AfterEdit(old(State()), Op.ClearCooldown(sn))
    {
      if sn !in entries { return; }
      entries := entries[sn := entries[sn].(cooldownUntil := None)];
      MirrorPublish(sn);
    }

    method PruneStale(now: int)
      modifies this`entries
      ensures State() == AfterPrune(old(State()), now)
    {
      var stale := set sn | sn in entries && Stale(entries[sn], now);
      entries := entries - stale;
    }

    /** Prunes, then hands out a copy without the cancel events. */
    method Snapshot(now: int) returns (copy: map<int, TaskProgress>)
      modifies this`entries
      ensures State() == AfterPrune(old(State()), now)
      ensures copy.Keys == entries.Keys && forall sn :: sn in copy ==> AgreesWithoutEvent(copy[sn], entries[sn])
    {
      PruneStale(now);
      copy := map sn | sn in entries :: entries[sn].Stripped();
    }
  }
}
