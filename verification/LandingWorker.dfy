/** `LandingWorker`: one landing tick and one remote-refresh tick, whatever Put.io answers. */
module LandingWorker {
  import opened Ordering
  import opened Wrappers
  import opened BtFeedEntries
  import P = ProgressModel

  datatype Failure = NotFound | RateLimited(retryAfter: nat) | ClientError | Unexpected

  datatype Reply<+T> = Ok(value: T) | Raises(failure: Failure)

  datatype Transfer = Transfer(status: PutioStatus, fileId: Option<int>, percentDone: Option<int>)

  datatype RemoteFile = RemoteFile(id: int, isFolder: bool)

  /** Everything Put.io and the settings table answer during one attempt at a row:
      `download` gives the local name, or the failure, of the n-th file. */
  datatype Attempt = Attempt(
    transfer: Reply<Transfer>,
    listing: Reply<seq<RemoteFile>>,
    file: Reply<RemoteFile>,
    download: nat -> Reply<string>,
    autoDelete: Reply<bool>,
    delete: Reply<()>)

  const LANDABLE: set<PutioStatus> := {Completed, Seeding}

  /** The statuses shown on the live card. */
  const SHOWN: set<PutioStatus> := {InQueue, Downloading, Completed, Seeding}

  const MAX_RATE_LIMIT_DELAY: nat := 60

  /** What the worker tells the outside: Telegram, task history, the live progress card, Put.io. */
  datatype Event =
    | StatusUpdate(id: int, status: PutioStatus)
    | CardUpdate(id: int, status: PutioStatus, rate: real)
    | Landing(id: int, path: string)
    | Failing(id: int)
    | HistoryClosed(id: int, finalStatus: P.Status, filename: Option<string>)
    | CardClosed(id: int, cardStatus: P.Status, filename: Option<string>)
    | DeleteRequested(id: int)

  // ------------------------------------------------------------------ one attempt

  datatype Outcome = Lands(path: string) | Resets | RemoteError | Waits | Fails(failure: Failure)

  /** The first failing download decides; otherwise the last name does. */
  function Downloaded(download: nat -> Reply<string>, files: nat): Reply<string>
    requires files > 0
  {
    if files == 1 then download(0)
    else
      match Downloaded(download, files - 1)
      case Raises(f) => Raises(f)
      case Ok(_) => download(files - 1)
  }

  function Decide(a: Attempt): Outcome {
    match a.transfer
    case Raises(f) => if f.NotFound? then Resets else Fails(f)
    case Ok(t) =>
      if t.status == Error then RemoteError
      else if t.status !in LANDABLE || t.fileId.None? then Waits
      else
        match a.listing
        case Raises(f) => Fails(f)
        case Ok(files) =>
          if files != [] then Settle(Downloaded(a.download, |files|))
          else
            match a.file
            case Raises(f) => Fails(f)
            case Ok(meta) => if meta.isFolder then Waits else Settle(Downloaded(a.download, 1))
  }

  function Settle(name: Reply<string>): Outcome {
    match name
    case Ok(path) => Lands(path)
    case Raises(f) => Fails(f)
  }

  predicate AllFetched(download: nat -> Reply<string>, files: nat) {
    forall n :: 0 <= n < files ==> download(n).Ok?
  }

  /** `f` is what the first failing file raises. */
  ghost predicate FirstFailure(download: nat -> Reply<string>, files: nat, f: Failure) {
    exists n :: 0 <= n < files && download(n) == Raises(f) && AllFetched(download, n)
  }

  lemma {:induction false} DownloadedIs(download: nat -> Reply<string>, files: nat, path: string, f: Failure)
    requires files > 0
    ensures Downloaded(download, files) == Ok(path) <==>
      AllFetched(download, files) && download(files - 1).value == path
    ensures Downloaded(download, files) == Raises(f) <==> FirstFailure(download, files, f)
  {
    if files > 1 {
      DownloadedIs(download, files - 1, if download(files - 2).Ok? then download(files - 2).value else "", f);
      DownloadedSteps(download, files, f);
    } else if download(0) == Raises(f) {
      assert AllFetched(download, 0);
    }
  }

  lemma {:induction false} DownloadedSteps(download: nat -> Reply<string>, files: nat, f: Failure)
    requires files > 1
    ensures AllFetched(download, files) <==> AllFetched(download, files - 1) && download(files - 1).Ok?
    ensures FirstFailure(download, files, f) <==>
      FirstFailure(download, files - 1, f) || (AllFetched(download, files - 1) && download(files - 1) == Raises(f))
    ensures Downloaded(download, files - 1).Ok? <==> AllFetched(download, files - 1)
  {
    FetchedIff(download, files - 1);
    if FirstFailure(download, files, f) {
      var n :| 0 <= n < files && download(n) == Raises(f) && AllFetched(download, n);
      assert n < files - 1 ==> FirstFailure(download, files - 1, f);
    }
  }

  lemma {:induction false} FetchedIff(download: nat -> Reply<string>, files: nat)
    requires files > 0
    ensures Downloaded(download, files).Ok? <==> AllFetched(download, files)
    ensures Downloaded(download, files).Ok? ==> Downloaded(download, files) == download(files - 1)
  {
    if files > 1 {
      FetchedIff(download, files - 1);
    }
  }

  /** The transfer can be landed: its status is one of two and it names a file. */
  predicate Ready(a: Attempt) {
    && a.transfer.Ok? && a.transfer.value.fileId.Some?
    && (a.transfer.value.status == Completed || a.transfer.value.status == Seeding)
  }

  /** Each outcome, told from the answers alone. A row lands exactly when every file of its listing, or
      the single file it is itself, was fetched; then it takes the name of the last one. */
  lemma DecideIff(a: Attempt, path: string, f: Failure)
    ensures Decide(a) == Lands(path) <==>
      Ready(a) && a.listing.Ok? &&
      (if a.listing.value != [] then
         AllFetched(a.download, |a.listing.value|) && a.download(|a.listing.value| - 1).value == path
       else a.file.Ok? && !a.file.value.isFolder && a.download(0) == Ok(path))
    ensures Decide(a) == Resets <==> a.transfer == Raises(NotFound)
    ensures Decide(a) == RemoteError <==> a.transfer.Ok? && a.transfer.value.status == Error
    ensures Decide(a) == Waits <==>
      a.transfer.Ok? && a.transfer.value.status != Error &&
      (!Ready(a) || (a.listing == Ok([]) && a.file.Ok? && a.file.value.isFolder))
    ensures Decide(a) == Fails(f) <==>
      || (a.transfer == Raises(f) && f != NotFound)
      || (Ready(a) &&
          if a.listing.Raises? then a.listing == Raises(f)
          else if a.listing.value != [] then FirstFailure(a.download, |a.listing.value|, f)
          else a.file == Raises(f) || (a.file.Ok? && !a.file.value.isFolder && a.download(0) == Raises(f)))
  {
    if a.listing.Ok? && a.listing.value != [] {
      DownloadedIs(a.download, |a.listing.value|, path, f);
    }
  }

  /** The remote file is gone after the attempt's delete: it succeeded or found nothing. */
  predicate DeleteWorks(a: Attempt) {
    a.autoDelete == Ok(true) && (a.delete.Ok? || a.delete.failure.NotFound?)
  }

  function EntryAfter(e: Entry, a: Attempt, now: int): Entry {
    match a.transfer
    case Raises(f) => if f.NotFound? then Changed(e, ResetDispatch(0)) else e
    case Ok(t) =>
      var polled := e.(status := Some(t.status));
      match Decide(a)
      case Lands(path) =>
        var landed := polled.(localPath := Some(path));
        if DeleteWorks(a) then Changed(landed, MarkRemoteCleared(0, now)) else landed
      case _ => polled
  }

  function FailureEvents(id: int): seq<Event> {
    [Failing(id)] + [HistoryClosed(id, P.LandingFailed, None), CardClosed(id, P.Failed, None)]
  }

  function LandingEvents(id: int, path: string, a: Attempt): seq<Event> {
    [Landing(id, path)] +
    ([HistoryClosed(id, P.Complete, Some(path)), CardClosed(id, P.Complete, Some(path))] +
     if a.autoDelete == Ok(true) then [DeleteRequested(id)] else [])
  }

  /** `listed` is the row as the tick's query returned it, also on the retry. */
  function UpdateEvents(id: int, listed: Entry, t: Transfer): seq<Event> {
    if Some(t.status) == listed.status then []
    else if t.status in SHOWN then [StatusUpdate(id, t.status), CardUpdate(id, t.status, Rate(t))]
    else [StatusUpdate(id, t.status)]
  }

  function Rate(t: Transfer): real {
    if t.status in LANDABLE then 1.0 else t.percentDone.GetOr(0) as real / 100.0
  }

  function AttemptEvents(id: int, listed: Entry, a: Attempt): seq<Event> {
    match a.transfer
    case Raises(f) => if f.NotFound? then [CardClosed(id, P.Interrupted, None)] else []
    case Ok(t) =>
      if t.status == Error then FailureEvents(id)
      else
        match Decide(a)
        case Lands(path) => UpdateEvents(id, listed, t) + LandingEvents(id, path, a)
        case _ => UpdateEvents(id, listed, t)
  }

  /** The file is deleted on Put.io, or was gone already. */
  predicate DeletedRemotely(a: Attempt) {
    a.autoDelete.Ok? && a.autoDelete.value && (a.delete.Ok? || a.delete == Raises(NotFound))
  }

  /** What one attempt writes to the row, column by column. */
  lemma AttemptWrites(e: Entry, a: Attempt, now: int)
    ensures var after := EntryAfter(e, a, now);
      && after.fetchedAt == e.fetchedAt && after.matchedFilter == e.matchedFilter
      && (a.transfer == Raises(NotFound) ==>
            after.transferId.None? && after.dispatchedAt.None? && after.status.None? && after.localPath.None?
            && after.remoteClearedAt == e.remoteClearedAt)
      && (a.transfer.Raises? && a.transfer != Raises(NotFound) ==> after == e)
      && (a.transfer.Ok? ==>
            && after.transferId == e.transferId && after.dispatchedAt == e.dispatchedAt
            && after.localPath == (if Decide(a).Lands? then Some(Decide(a).path) else e.localPath)
            && after.remoteClearedAt ==
                 (if Decide(a).Lands? && DeletedRemotely(a) then Some(now) else e.remoteClearedAt)
            && after.status ==
                 Some(if Decide(a).Lands? && DeletedRemotely(a) then Cleared else a.transfer.value.status))
  {
  }

  /** What one poll of the remote refresh writes to the row, column by column. */
  lemma RefreshWrites(e: Entry, a: Attempt, now: int)
    ensures var after := Refreshed(e, a, now);
      && after.fetchedAt == e.fetchedAt && after.matchedFilter == e.matchedFilter
      && after.transferId == e.transferId && after.dispatchedAt == e.dispatchedAt && after.localPath == e.localPath
      && (a.transfer == Raises(NotFound) ==> after.remoteClearedAt == Some(now) && after.status == Some(Removed))
      && (a.transfer.Raises? && a.transfer != Raises(NotFound) ==> after == e)
      && (a.transfer.Ok? && Ready(a) && DeletedRemotely(a) ==>
            after.remoteClearedAt == Some(now) && after.status == Some(Cleared))
      && (a.transfer.Ok? && !(Ready(a) && DeletedRemotely(a)) ==>
            && after.remoteClearedAt == e.remoteClearedAt
            && after.status ==
                 (if a.transfer.value.status == Other("") then e.status else Some(a.transfer.value.status)))
  {
  }

  /** What one attempt tells the outside about its row, event by event. */
  lemma AttemptTells(id: int, listed: Entry, a: Attempt, status: PutioStatus, rate: real, path: string)
    ensures var events, changed := AttemptEvents(id, listed, a),
              a.transfer.Ok? && a.transfer.value.status == status && status != Error && listed.status != Some(status);
      && (StatusUpdate(id, status) in events <==> changed)
      && (CardUpdate(id, status, rate) in events <==>
            && changed && (status == InQueue || status == Downloading || status == Completed || status == Seeding)
            && rate == (if status == Completed || status == Seeding then 1.0
                        else a.transfer.value.percentDone.GetOr(0) as real / 100.0))
      && (Landing(id, path) in events <==> Decide(a) == Lands(path))
      && (Failing(id) in events <==> a.transfer.Ok? && a.transfer.value.status == Error)
      && (DeleteRequested(id) in events <==> Decide(a).Lands? && a.autoDelete == Ok(true))
  {
  }

  /** Which history row and which card it closes, and how. */
  lemma AttemptCloses(id: int, listed: Entry, a: Attempt, final: P.Status, filename: Option<string>)
    ensures var events := AttemptEvents(id, listed, a);
      && (HistoryClosed(id, final, filename) in events <==>
            || (Decide(a).Lands? && final == P.Complete && filename == Some(Decide(a).path))
            || (Decide(a) == RemoteError && final == P.LandingFailed && filename.None?))
      && (CardClosed(id, final, filename) in events <==>
            || (Decide(a).Lands? && final == P.Complete && filename == Some(Decide(a).path))
            || (Decide(a) == RemoteError && final == P.Failed && filename.None?)
            || (Decide(a) == Resets && final == P.Interrupted && filename.None?))
  {
  }

  // ------------------------------------------------------------------ one row in one tick

  datatype Handled = Handled(entry: Entry, events: seq<Event>, polls: nat, waited: nat)

  /** A row's share of a tick: one attempt, and one more after a rate limit. */
  function Handle(id: int, e: Entry, first: Attempt, second: Attempt, now: int): Handled {
    var e1, ev1 := EntryAfter(e, first, now), AttemptEvents(id, e, first);
    match Decide(first)
    case Fails(RateLimited(retryAfter)) =>
      var wait := if retryAfter <= MAX_RATE_LIMIT_DELAY then retryAfter else MAX_RATE_LIMIT_DELAY;
      var e2, ev2 := EntryAfter(e1, second, now), ev1 + AttemptEvents(id, e, second);
      if Decide(second).Fails? && !Decide(second).failure.RateLimited?
      then Handled(e2, ev2 + FailureEvents(id), 2, wait)
      else Handled(e2, ev2, 2, wait)
    case Fails(_) => Handled(e1, ev1 + FailureEvents(id), 1, 0)
    case _ => Handled(e1, ev1, 1, 0)
  }

  /** A second attempt is made exactly after a rate limit, sixty seconds later at most; the deciding
      attempt's events come last, and a failure it raises is told then. */
  lemma HandleRetries(id: int, e: Entry, first: Attempt, second: Attempt, now: int)
    ensures var h := Handle(id, e, first, second, now);
      var limited := Decide(first).Fails? && Decide(first).failure.RateLimited?;
      var last := if limited then second else first;
      var failed := Decide(last).Fails? && !Decide(last).failure.RateLimited?;
      && h.polls == (if limited then 2 else 1)
      && h.waited == (if !limited then 0
                      else if Decide(first).failure.retryAfter <= 60 then Decide(first).failure.retryAfter else 60)
      && h.events == (if limited then AttemptEvents(id, e, first) else [])
                     + AttemptEvents(id, e, last)
                     + (if !failed then []
                        else [Failing(id), HistoryClosed(id, P.LandingFailed, None), CardClosed(id, P.Failed, None)])
      && h.entry == EntryAfter(if limited then EntryAfter(e, first, now) else e, last, now)
  {
  }

  /** How often a row was reported landed and failed. */
  datatype Tally = Tally(landed: nat, failed: nat)

  function Plus(a: Tally, b: Tally): Tally { Tally(a.landed + b.landed, a.failed + b.failed) }

  function Reports(events: seq<Event>, id: int): Tally {
    if events == [] then Tally(0, 0)
    else
      var ev := events[|events| - 1];
      Plus(Reports(events[..|events| - 1], id),
           if ev == Failing(id) then Tally(0, 1) else if ev.Landing? && ev.id == id then Tally(1, 0) else Tally(0, 0))
  }

  lemma {:induction false} ReportsSplit(a: seq<Event>, b: seq<Event>, id: int)
    ensures Reports(a + b, id) == Plus(Reports(a, id), Reports(b, id))
  {
    if b == [] {
      assert a + b == a;
    } else {
      ReportsSplit(a, b[..|b| - 1], id);
      assert (a + b)[..|a + b| - 1] == a + b[..|b| - 1];
    }
  }

  lemma {:induction false} NothingReported(events: seq<Event>, id: int)
    requires forall k :: 0 <= k < |events| ==> events[k] != Failing(id) && !(events[k].Landing? && events[k].id == id)
    ensures Reports(events, id) == Tally(0, 0)
  {
    if events != [] {
      NothingReported(events[..|events| - 1], id);
    }
  }

  lemma ReportsFirst(ev: Event, rest: seq<Event>, id: int)
    requires forall k :: 0 <= k < |rest| ==> rest[k] != Failing(id) && !(rest[k].Landing? && rest[k].id == id)
    ensures Reports([ev] + rest, id) ==
      if ev == Failing(id) then Tally(0, 1) else if ev.Landing? && ev.id == id then Tally(1, 0) else Tally(0, 0)
  {
    ReportsSplit([ev], rest, id);
    NothingReported(rest, id);
    assert [ev][..0] == [];
    assert Reports([], id) == Tally(0, 0);
  }

  lemma FailureReports(id: int)
    ensures Reports(FailureEvents(id), id) == Tally(0, 1)
  {
    ReportsFirst(Failing(id), [HistoryClosed(id, P.LandingFailed, None), CardClosed(id, P.Failed, None)], id);
  }

  lemma LandingReports(id: int, path: string, a: Attempt)
    ensures Reports(LandingEvents(id, path, a), id) == Tally(1, 0)
  {
    var tail := [HistoryClosed(id, P.Complete, Some(path)), CardClosed(id, P.Complete, Some(path))] +
      if a.autoDelete == Ok(true) then [DeleteRequested(id)] else [];
    assert forall k :: 0 <= k < |tail| ==> !tail[k].Landing? && !tail[k].Failing?;
    ReportsFirst(Landing(id, path), tail, id);
  }

  /** What one attempt reports. */
  lemma AttemptReports(id: int, listed: Entry, a: Attempt)
    ensures Reports(AttemptEvents(id, listed, a), id) ==
      match Decide(a) { case Lands(_) => Tally(1, 0) case RemoteError => Tally(0, 1) case _ => Tally(0, 0) }
  {
    match a.transfer
    case Raises(f) => NothingReported(AttemptEvents(id, listed, a), id);
    case Ok(t) =>
      if t.status == Error {
        FailureReports(id);
      } else {
        var update := UpdateEvents(id, listed, t);
        NothingReported(update, id);
        if Decide(a).Lands? {
          LandingReports(id, Decide(a).path, a);
          ReportsSplit(update, LandingEvents(id, Decide(a).path, a), id);
        }
      }
  }

  /** What one attempt leaves in the row. */
  lemma AttemptLeaves(e: Entry, a: Attempt, now: int)
    requires PendingLanding(e)
    ensures var after := EntryAfter(e, a, now);
      match Decide(a)
      case Lands(path) =>
        && after.localPath == Some(path) && after.transferId == e.transferId
        && (Settled(after) <==> DeleteWorks(a) || e.remoteClearedAt.Some?)
      case Resets => BackToUndispatched(after)
      case _ => PendingLanding(after) && after.transferId == e.transferId
  {
  }

  /** The four fates of a pending row, told from what a tick left behind. */
  datatype Fate = HasLanded | WasReset | HasFailed | Deferred

  const FATES: set<Fate> := {HasLanded, WasReset, HasFailed, Deferred}

  /** All dispatch state is cleared; the row goes out again exactly when it is matched. */
  predicate BackToUndispatched(e: Entry) {
    && e.transferId.None? && e.dispatchedAt.None? && e.status.None? && e.localPath.None?
    && (PendingDispatch(e) <==> e.matchedFilter.Some?)
  }

  predicate Met(fate: Fate, id: int, before: Entry, after: Entry, events: seq<Event>) {
    match fate
    case HasLanded =>
      after.localPath.Some? && after.transferId == before.transferId && Reports(events, id) == Tally(1, 0)
    case WasReset => BackToUndispatched(after) && Reports(events, id) == Tally(0, 0)
    case HasFailed =>
      PendingLanding(after) && after.transferId == before.transferId && Reports(events, id) == Tally(0, 1)
    case Deferred =>
      PendingLanding(after) && after.transferId == before.transferId && Reports(events, id) == Tally(0, 0)
  }

  /** The reports of a whole row: those of the deciding attempt, a failure counting once. */
  lemma HandleReports(id: int, e: Entry, first: Attempt, second: Attempt, now: int)
    ensures var last := if Decide(first).Fails? && Decide(first).failure.RateLimited? then second else first;
      Reports(Handle(id, e, first, second, now).events, id) ==
      match Decide(last)
      case Lands(_) => Tally(1, 0)
      case RemoteError => Tally(0, 1)
      case Fails(f) => if f.RateLimited? then Tally(0, 0) else Tally(0, 1)
      case _ => Tally(0, 0)
  {
    var ev1, ev2 := AttemptEvents(id, e, first), AttemptEvents(id, e, second);
    AttemptReports(id, e, first);
    if Decide(first).Fails? {
      if Decide(first).failure.RateLimited? {
        AttemptReports(id, e, second);
        ReportsSplit(ev1, ev2, id);
        if Decide(second).Fails? && !Decide(second).failure.RateLimited? {
          FailureReports(id);
          ReportsSplit(ev1 + ev2, FailureEvents(id), id);
        }
      } else {
        FailureReports(id);
        ReportsSplit(ev1, FailureEvents(id), id);
      }
    }
  }

  /** Whatever Put.io answers, a pending row meets exactly one fate, with one or two polls. A landed
      row is reported landed once and never failed, whatever its remote delete does. */
  lemma ExactlyOneFate(id: int, e: Entry, first: Attempt, second: Attempt, now: int)
    requires PendingLanding(e)
    ensures var h := Handle(id, e, first, second, now);
      && (exists fate :: fate in FATES && Met(fate, id, e, h.entry, h.events))
      && (forall f, g | f in FATES && g in FATES && f != g ::
            !Met(f, id, e, h.entry, h.events) || !Met(g, id, e, h.entry, h.events))
      && 1 <= h.polls <= 2 && h.waited <= MAX_RATE_LIMIT_DELAY
  {
    AttemptLeaves(e, first, now);
    HandleReports(id, e, first, second, now);
    var h := Handle(id, e, first, second, now);
    if Decide(first).Fails? && Decide(first).failure.RateLimited? {
      AttemptLeaves(EntryAfter(e, first, now), second, now);
    }
    var fate :=
      if h.entry.localPath.Some? then HasLanded
      else if h.entry.transferId.None? then WasReset
      else if Reports(h.events, id).failed == 1 then HasFailed
      else Deferred;
    assert fate in FATES && Met(fate, id, e, h.entry, h.events);
    FatesExclude(id, e, h.entry, h.events);
  }

  lemma FatesExclude(id: int, before: Entry, after: Entry, events: seq<Event>)
    requires PendingLanding(before)
    ensures forall f, g | f in FATES && g in FATES && f != g ::
      !Met(f, id, before, after, events) || !Met(g, id, before, after, events)
  {
  }

  // ------------------------------------------------------------------ the whole tick

  type Answers = (int, nat) -> Attempt

  /** The table after the rows `done` of a tick were handled, each by its own answers alone. */
  function Processed(rows: Table, done: seq<int>, env: Answers, now: int): Table {
    map id | id in rows :: if id in done then Handle(id, rows[id], env(id, 0), env(id, 1), now).entry else rows[id]
  }

  function EventsOf(rows: Table, done: seq<int>, env: Answers, now: int): seq<Event>
    requires forall id :: id in done ==> id in rows
  {
    if done == [] then []
    else
      var id := done[|done| - 1];
      EventsOf(rows, done[..|done| - 1], env, now) + Handle(id, rows[id], env(id, 0), env(id, 1), now).events
  }

  // ------------------------------------------------------------------ the remote-refresh tick

  /** What one poll of a landed, uncleared row leaves in it. */
  function Refreshed(e: Entry, a: Attempt, now: int): Entry {
    match a.transfer
    case Raises(f) => if f.NotFound? then Changed(e, MarkRemoteRemoved(0, now)) else e
    case Ok(t) =>
      var polled := if t.status != Other("") && Some(t.status) != e.status then e.(status := Some(t.status)) else e;
      if t.status in LANDABLE && t.fileId.Some? && DeleteWorks(a) then Changed(polled, MarkRemoteCleared(0, now))
      else polled
  }

  /** A poll asks for the delete of a landable file while the setting is on, and tells nobody else. */
  function RefreshEvents(id: int, a: Attempt): seq<Event> {
    if a.transfer.Ok? && a.transfer.value.status in LANDABLE && a.transfer.value.fileId.Some?
       && a.autoDelete == Ok(true)
    then [DeleteRequested(id)]
    else []
  }

  lemma RefreshTells(id: int, a: Attempt)
    ensures DeleteRequested(id) in RefreshEvents(id, a) <==> Ready(a) && a.autoDelete == Ok(true)
    ensures forall ev :: ev in RefreshEvents(id, a) ==> ev == DeleteRequested(id)
  {
  }

  function AllRefreshEvents(polled: seq<int>, env: int -> Attempt): seq<Event> {
    if polled == [] then []
    else AllRefreshEvents(polled[..|polled| - 1], env) + RefreshEvents(polled[|polled| - 1], env(polled[|polled| - 1]))
  }

  function RefreshedTable(rows: Table, done: seq<int>, env: int -> Attempt, now: int): Table {
    map id | id in rows :: if id in done then Refreshed(rows[id], env(id), now) else rows[id]
  }

  lemma RefreshedStep(rows: Table, done: seq<int>, id: int, env: int -> Attempt, now: int)
    requires id in rows && id !in done
    ensures RefreshedTable(rows, done, env, now)[id] == rows[id]
    ensures RefreshedTable(rows, done + [id], env, now) ==
      RefreshedTable(rows, done, env, now)[id := Refreshed(rows[id], env(id), now)]
  {
  }

  /** The poll ends the row's remote life: the transfer is gone, or is landable with a file and
      the delete is on, and works. */
  predicate Clears(a: Attempt) {
    || (a.transfer.Raises? && a.transfer.failure.NotFound?)
    || (a.transfer.Ok? && a.transfer.value.status in LANDABLE && a.transfer.value.fileId.Some? && DeleteWorks(a))
  }

  /** A polled row leaves the query's set exactly when the poll clears it; it is settled then. */
  lemma PolledLeavesIffCleared(e: Entry, a: Attempt, now: int)
    requires PendingRemoteCheck(e)
    ensures PendingRemoteCheck(Refreshed(e, a, now)) <==> !Clears(a)
    ensures Clears(a) ==> Settled(Refreshed(e, a, now))
    ensures Refreshed(e, a, now).fetchedAt == e.fetchedAt
  {
  }

  /** One tick of batch size `batch`, ties in the order being the database's choice. */
  ghost predicate RefreshTick(t: Table, t': Table, batch: nat, env: int -> Attempt, now: int) {
    exists ids :: NewestFirst(t, Unchecked(t), ids, batch) && t' == RefreshedTable(t, ids, env, now)
  }

  lemma Associates(a: seq<Event>, b: seq<Event>, c: seq<Event>)
    ensures a + b + c == a + (b + c)
  {
  }

  lemma ProcessedStep(rows: Table, done: seq<int>, id: int, env: Answers, now: int)
    requires id in rows && id !in done && forall n :: n in done ==> n in rows
    ensures Processed(rows, done, env, now)[id] == rows[id]
    ensures Processed(rows, done + [id], env, now) ==
      Processed(rows, done, env, now)[id := Handle(id, rows[id], env(id, 0), env(id, 1), now).entry]
    ensures EventsOf(rows, done + [id], env, now) ==
      EventsOf(rows, done, env, now) + Handle(id, rows[id], env(id, 0), env(id, 1), now).events
  {
    assert (done + [id])[..|done|] == done;
  }

  class LandingWorker {
    const repo: BtFeedEntryRepository
    var events: seq<Event>

    constructor (repo: BtFeedEntryRepository)
      ensures this.repo == repo && events == []
    {
      this.repo, this.events := repo, [];
    }

    method EmitFailure(id: int)
      modifies this
      ensures events == old(events) + FailureEvents(id)
    {
      events := events + [Failing(id)];
      events := events + [HistoryClosed(id, P.LandingFailed, None)];
      events := events + [CardClosed(id, P.Failed, None)];
    }

    /** The download loop over the files of one transfer. */
    method DownloadFiles(download: nat -> Reply<string>, count: nat) returns (name: Reply<string>)
      requires count > 0
      ensures name == Downloaded(download, count)
    {
      name := download(0);
      var n := 1;
      while n < count && name.Ok?
        invariant 1 <= n <= count && name == Downloaded(download, n)
      {
        name := download(n);
        n := n + 1;
      }
      FailureSticks(download, n, count);
    }

    /** `_process_row`: returns the failure it raises, if any. */
    method ProcessRow(id: int, listed: Entry, a: Attempt, now: int) returns (raised: Option<Failure>)
      requires id in repo.rows && PendingLanding(repo.rows[id])
      modifies this, repo
      ensures repo.rows == old(repo.rows)[id := EntryAfter(old(repo.rows[id]), a, now)]
      ensures events == old(events) + AttemptEvents(id, listed, a)
      ensures raised == if Decide(a).Fails? then Some(Decide(a).failure) else None
      ensures raised.Some? ==> repo.rows[id].localPath.None?
    {
      if a.transfer.Raises? {
        if !a.transfer.failure.NotFound? { return Some(a.transfer.failure); }
        repo.ResetDispatch(id);
        events := events + [CardClosed(id, P.Interrupted, None)];
        return None;
      }
      var t := a.transfer.value;
      repo.UpdatePutioStatus(id, t.status);
      if t.status == Error {
        EmitFailure(id);
        return None;
      }
      if Some(t.status) != listed.status {
        events := events + [StatusUpdate(id, t.status)];
        if t.status in SHOWN {
          events := events + [CardUpdate(id, t.status, Rate(t))];
        }
      }
      if t.status !in LANDABLE || t.fileId.None? { return None; }
      if a.listing.Raises? { return Some(a.listing.failure); }
      var count := |a.listing.value|;
      if count == 0 {
        if a.file.Raises? { return Some(a.file.failure); }
        if a.file.value.isFolder { return None; }
        count := 1;
      }
      var name := DownloadFiles(a.download, count);
      if name.Raises? { return Some(name.failure); }
      Land(id, name.value, a, now);
      return None;
    }

    /** The success tail: the row is marked and reported before the remote delete is tried. */
    method Land(id: int, path: string, a: Attempt, now: int)
      requires id in repo.rows
      modifies this, repo
      ensures var landed := old(repo.rows[id]).(localPath := Some(path));
        repo.rows == old(repo.rows)[id := if DeleteWorks(a) then Changed(landed, MarkRemoteCleared(0, now)) else landed]
      ensures events == old(events) + LandingEvents(id, path, a)
    {
      repo.UpdateLocalPath(id, path);
      events := events +
        [Landing(id, path), HistoryClosed(id, P.Complete, Some(path)), CardClosed(id, P.Complete, Some(path))];
      if a.autoDelete == Ok(true) {
        DeleteRemoteAndMarkCleared(id, a.delete, now);
      }
    }

    /** Never raises: a failed delete leaves the row for the refresh tick. */
    method DeleteRemoteAndMarkCleared(id: int, answer: Reply<()>, now: int)
      modifies this, repo
      ensures events == old(events) + [DeleteRequested(id)]
      ensures repo.rows ==
        if answer.Ok? || answer.failure.NotFound? then After(old(repo.rows), MarkRemoteCleared(id, now))
        else old(repo.rows)
    {
      events := events + [DeleteRequested(id)];
      if answer.Raises? && !answer.failure.NotFound? { return; }
      repo.MarkRemoteCleared(id, now);
    }

    /** One row of `run_iteration` with `_handle_rate_limit_and_retry_once`. */
    method HandleRow(id: int, listed: Entry, env: Answers, now: int) returns (polls: nat, waited: nat)
      requires id in repo.rows && repo.rows[id] == listed && PendingLanding(listed)
      modifies this, repo
      ensures repo.rows == old(repo.rows)[id := Handle(id, listed, env(id, 0), env(id, 1), now).entry]
      ensures events == old(events) + Handle(id, listed, env(id, 0), env(id, 1), now).events
      ensures polls == Handle(id, listed, env(id, 0), env(id, 1), now).polls
      ensures waited == Handle(id, listed, env(id, 0), env(id, 1), now).waited
    {
      polls, waited := 1, 0;
      var raised := ProcessRow(id, listed, env(id, 0), now);
      if raised.Some? && raised.value.RateLimited? {
        AttemptLeaves(listed, env(id, 0), now);
        var asked := raised.value.retryAfter;
        waited := if asked < MAX_RATE_LIMIT_DELAY then asked else MAX_RATE_LIMIT_DELAY;
        polls := 2;
        raised := ProcessRow(id, listed, env(id, 1), now);
        if raised.Some? && raised.value.RateLimited? { return; }
      }
      if raised.Some? {
        EmitFailure(id);
      }
    }

    /** `_refresh_remote_status` on one row; what it raises is logged by the loop and dropped. */
    method RefreshRemoteStatus(id: int, listed: Entry, a: Attempt, now: int)
      requires id in repo.rows && repo.rows[id] == listed
      modifies this, repo
      ensures repo.rows == old(repo.rows)[id := Refreshed(listed, a, now)]
      ensures events == old(events) + RefreshEvents(id, a)
    {
      if a.transfer.Raises? {
        if a.transfer.failure.NotFound? {
          repo.MarkRemoteRemoved(id, now);
        }
        return;
      }
      var t := a.transfer.value;
      if t.status != Other("") && Some(t.status) != listed.status {
        repo.UpdatePutioStatus(id, t.status);
      }
      if t.status in LANDABLE && t.fileId.Some? && a.autoDelete == Ok(true) {
        DeleteRemoteAndMarkCleared(id, a.delete, now);
      }
    }

    /** `run_remote_refresh_iteration`: one tick over the newest `batch` uncleared rows. */
    method RunRemoteRefreshIteration(batch: nat, env: int -> Attempt, now: int) returns (ghost polled: seq<int>)
      modifies this, repo
      ensures NewestFirst(old(repo.rows), Unchecked(old(repo.rows)), polled, batch)
      ensures repo.rows == RefreshedTable(old(repo.rows), polled, env, now)
      ensures events == old(events) + AllRefreshEvents(polled, env)
    {
      var ids := repo.ListLandedPendingRemoteCheck(batch);
      polled := ids;
      var listed := repo.rows;
      for i := 0 to |ids|
        invariant repo.rows == RefreshedTable(listed, ids[..i], env, now)
        invariant events == old(events) + AllRefreshEvents(ids[..i], env)
      {
        RefreshNext(listed, ids[..i], ids[i], env, now, old(events));
        assert ids[..i + 1] == ids[..i] + [ids[i]];
      }
      assert ids[..|ids|] == ids;
    }

    /** One turn of the loop of `run_remote_refresh_iteration`. */
    method RefreshNext(listed: Table, ghost done: seq<int>, id: int, env: int -> Attempt, now: int,
                       ghost base: seq<Event>)
      requires id in listed && id !in done
      requires repo.rows == RefreshedTable(listed, done, env, now)
      requires events == base + AllRefreshEvents(done, env)
      modifies this, repo
      ensures repo.rows == RefreshedTable(listed, done + [id], env, now)
      ensures events == base + AllRefreshEvents(done + [id], env)
    {
      RefreshedStep(listed, done, id, env, now);
      RefreshRemoteStatus(id, listed[id], env(id), now);
      Associates(base, AllRefreshEvents(done, env), RefreshEvents(id, env(id)));
      assert (done + [id])[..|done|] == done;
    }

    /** One turn of the loop of `run_iteration`. */
    method HandleNext(listed: Table, ghost done: seq<int>, id: int, env: Answers, now: int, ghost base: seq<Event>)
      requires id in listed && PendingLanding(listed[id]) && id !in done && forall n :: n in done ==> n in listed
      requires repo.rows == Processed(listed, done, env, now)
      requires events == base + EventsOf(listed, done, env, now)
      modifies this, repo
      ensures repo.rows == Processed(listed, done + [id], env, now)
      ensures forall n :: n in done + [id] ==> n in listed
      ensures events == base + EventsOf(listed, done + [id], env, now)
    {
      ProcessedStep(listed, done, id, env, now);
      var _, _ := HandleRow(id, listed[id], env, now);
      Associates(base, EventsOf(listed, done, env, now), Handle(id, listed[id], env(id, 0), env(id, 1), now).events);
    }

    /** `run_iteration`: each pending row is handled by its own answers, in id order, no matter
        what happened to the rows before it; all other rows are untouched. */
    method RunIteration(env: Answers, now: int) returns (ghost pending: seq<int>)
      modifies this, repo
      ensures Ascending(Pending(old(repo.rows)), pending)
      ensures repo.rows == Processed(old(repo.rows), pending, env, now)
      ensures events == old(events) + EventsOf(old(repo.rows), pending, env, now)
    {
      var ids := repo.ListPendingLanding();
      pending := ids;
      var listed := repo.rows;
      for i := 0 to |ids|
        invariant repo.rows == Processed(listed, ids[..i], env, now)
        invariant events == old(events) + EventsOf(listed, ids[..i], env, now)
      {
        HandleNext(listed, ids[..i], ids[i], env, now, old(events));
        assert ids[..i + 1] == ids[..i] + [ids[i]];
      }
      assert ids[..|ids|] == ids;
    }
  }

  lemma {:induction false} FailureSticks(download: nat -> Reply<string>, n: nat, count: nat)
    requires 0 < n <= count && (n == count || Downloaded(download, n).Raises?)
    ensures Downloaded(download, count) == Downloaded(download, n)
  {
    if n < count {
      FailureSticks(download, n, count - 1);
    }
  }

  /** Every pending row of a tick meets exactly one fate, told from the whole event log; reports
      about other rows never mix in. */
  lemma TickFates(rows: Table, pending: seq<int>, env: Answers, now: int, id: int)
    requires Ascending(Pending(rows), pending) && id in pending
    ensures var after := Processed(rows, pending, env, now)[id];
      var log := EventsOf(rows, pending, env, now);
      && (exists fate :: fate in FATES && Met(fate, id, rows[id], after, log))
      && (forall f, g | f in FATES && g in FATES && f != g ::
            !Met(f, id, rows[id], after, log) || !Met(g, id, rows[id], after, log))
  {
    ExactlyOneFate(id, rows[id], env(id, 0), env(id, 1), now);
    TickReports(rows, pending, env, now, id);
    var h := Handle(id, rows[id], env(id, 0), env(id, 1), now);
    var fate :| fate in FATES && Met(fate, id, rows[id], h.entry, h.events);
    SameReports(fate, id, rows[id], h.entry, h.events, EventsOf(rows, pending, env, now));
    FatesExclude(id, rows[id], h.entry, EventsOf(rows, pending, env, now));
  }

  lemma SameReports(fate: Fate, id: int, before: Entry, after: Entry, events: seq<Event>, log: seq<Event>)
    requires Met(fate, id, before, after, events) && Reports(log, id) == Reports(events, id)
    ensures Met(fate, id, before, after, log)
  {
  }

  lemma {:induction false} TickReports(rows: Table, done: seq<int>, env: Answers, now: int, id: int)
    requires forall n :: n in done ==> n in rows
    requires forall j, k :: 0 <= j < k < |done| ==> done[j] < done[k]
    requires id in rows
    ensures Reports(EventsOf(rows, done, env, now), id) ==
      if id in done then Reports(Handle(id, rows[id], env(id, 0), env(id, 1), now).events, id) else Tally(0, 0)
  {
    if done != [] {
      var init, last := done[..|done| - 1], done[|done| - 1];
      TickReports(rows, init, env, now, id);
      var h := Handle(last, rows[last], env(last, 0), env(last, 1), now);
      ReportsSplit(EventsOf(rows, init, env, now), h.events, id);
      assert id in done <==> id in init || id == last;
      if id != last {
        OwnEventsOnly(last, rows[last], env(last, 0), env(last, 1), now);
        NothingReported(h.events, id);
      }
    }
  }

  lemma OwnEventsOnly(id: int, e: Entry, first: Attempt, second: Attempt, now: int)
    ensures forall k :: 0 <= k < |Handle(id, e, first, second, now).events| ==>
      Handle(id, e, first, second, now).events[k].id == id
  {
    OwnAttemptEvents(id, e, first);
    OwnAttemptEvents(id, e, second);
  }

  lemma OwnAttemptEvents(id: int, e: Entry, a: Attempt)
    ensures forall k :: 0 <= k < |AttemptEvents(id, e, a)| ==> AttemptEvents(id, e, a)[k].id == id
  {
  }

  /** Neither tick ever leaves a row half dispatched: both only write to rows that are. */
  lemma TicksKeepCoherent(rows: Table, done: seq<int>, env: Answers, poll: int -> Attempt, now: int)
    requires AllCoherent(rows)
    requires forall id :: id in done ==> id in rows
    ensures (forall id :: id in done ==> PendingLanding(rows[id])) ==> AllCoherent(Processed(rows, done, env, now))
    ensures (forall id :: id in done ==> PendingRemoteCheck(rows[id])) ==>
      AllCoherent(RefreshedTable(rows, done, poll, now))
  {
    forall id | id in done && PendingLanding(rows[id])
      ensures Coherent(Handle(id, rows[id], env(id, 0), env(id, 1), now).entry)
    {
      AttemptLeaves(rows[id], env(id, 0), now);
      AttemptKeepsCoherent(rows[id], env(id, 0), now);
      if Decide(env(id, 0)).Fails? {
        AttemptKeepsCoherent(EntryAfter(rows[id], env(id, 0), now), env(id, 1), now);
      }
    }
    forall id | id in done && PendingRemoteCheck(rows[id]) ensures Coherent(Refreshed(rows[id], poll(id), now)) {
    }
  }

  /** One thing that happens to the table: a tick of either kind, with everything Put.io answers
      during it, or a repository call on rows the call is meant for. */
  datatype Move =
    | LandTick(env: Answers, now: int)
    | PollTick(batch: nat, poll: int -> Attempt, now: int)
    | Calls(call: Call)

  ghost predicate Moved(t: Table, t': Table, move: Move) {
    match move
    case LandTick(env, now) => exists pending :: Ascending(Pending(t), pending) && t' == Processed(t, pending, env, now)
    case PollTick(batch, poll, now) => RefreshTick(t, t', batch, poll, now)
    case Calls(call) => CallableOn(t, call) && t' == After(t, call)
  }

  lemma MovedKeepsCoherent(t: Table, t': Table, move: Move)
    requires AllCoherent(t) && Moved(t, t', move)
    ensures AllCoherent(t')
  {
    match move
    case LandTick(env, now) =>
      var pending :| Ascending(Pending(t), pending) && t' == Processed(t, pending, env, now);
      TicksKeepCoherent(t, pending, env, id => env(id, 0), now);
    case PollTick(batch, poll, now) =>
      var ids :| NewestFirst(t, Unchecked(t), ids, batch) && t' == RefreshedTable(t, ids, poll, now);
      TicksKeepCoherent(t, ids, (id, n) => poll(id), poll, now);
    case Calls(call) => CoherentStep(t, call);
  }

  /** Whatever Put.io answers and however ticks, dispatches and clean-ups alternate: no row is ever
      half dispatched, and the reconciliation queries always split the old dispatched rows. */
  lemma {:induction false} EveryTableCoherent(ts: seq<Table>, moves: seq<Move>)
    requires |ts| == |moves| + 1 && ts[0] == map[]
    requires forall k :: 0 <= k < |moves| ==> Moved(ts[k], ts[k + 1], moves[k])
    ensures AllCoherent(ts[|moves|]) && Partitioned(ts[|moves|])
  {
    if moves != [] {
      var n := |moves| - 1;
      EveryTableCoherent(ts[..n + 1], moves[..n]);
      MovedKeepsCoherent(ts[n], ts[n + 1], moves[n]);
    }
    CoherentPartition(ts[|moves|]);
  }

  lemma AttemptKeepsCoherent(e: Entry, a: Attempt, now: int)
    requires Coherent(e) && PendingLanding(e)
    ensures Coherent(EntryAfter(e, a, now))
  {
  }
}
