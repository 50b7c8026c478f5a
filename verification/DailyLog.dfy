/** `DailyLogFileHandler`: a dated log file with size rollover, shared by any number of handlers.
    A line of text and its line end take |line| + 1 bytes. */
module DailyLog {
  import opened Wrappers

  const MAX_BYTES: int := 100 * 1024 * 1024

  datatype Name = Name(day: int, suffix: nat)

  type Files = map<Name, seq<string>>

  function Lines(files: Files, name: Name): seq<string> {
    if name in files then files[name] else []
  }

  function Bytes(lines: seq<string>): nat {
    if lines == [] then 0 else Bytes(lines[..|lines| - 1]) + |lines[|lines| - 1]| + 1
  }

  /** `_file_size`: a missing file has size 0. */
  function Size(files: Files, name: Name): nat { Bytes(Lines(files, name)) }

  predicate Full(files: Files, day: int, suffix: nat) { Size(files, Name(day, suffix)) >= MAX_BYTES }

  predicate FirstNotFull(files: Files, day: int, suffix: nat) {
    !Full(files, day, suffix) && forall s: nat :: s < suffix ==> Full(files, day, s)
  }

  function Appended(files: Files, name: Name, line: string): Files {
    files[name := Lines(files, name) + [line]]
  }

  /** `_prune_old` with a retention of `backupCount` days. */
  function Pruned(files: Files, today: int, backupCount: nat): Files {
    if backupCount == 0 then files
    else map name | name in files && name.day >= today - (backupCount - 1) :: files[name]
  }

  /** Exactly the files of the last `backupCount` days stay, unchanged, and all files under no retention. */
  lemma PrunedKeepsLastDays(files: Files, today: int, backupCount: nat, name: Name)
    ensures name in Pruned(files, today, backupCount) <==>
      name in files && (backupCount == 0 || today - name.day < backupCount)
    ensures name in Pruned(files, today, backupCount) ==> Pruned(files, today, backupCount)[name] == files[name]
  {
  }

  /** The rollover state of one handler object. */
  datatype Handler = Handler(date: Option<int>, suffix: nat, pruned: Option<int>)

  const FRESH: Handler := Handler(None, 0, None)

  /** One emit of `line` into the file with suffix `s`. */
  ghost predicate EmitsInto(files: Files, h: Handler, line: string, today: int, backupCount: nat, s: nat,
                            files': Files, h': Handler)
  {
    var written := Appended(files, Name(today, s), line);
    && (if h.date == Some(today) then s == h.suffix else FirstNotFull(files, today, s))
    && h' == Handler(Some(today), if Full(written, today, s) then s + 1 else s, Some(today))
    && files' == if h.pruned == Some(today) then written else Pruned(written, today, backupCount)
  }

  class LogDirectory {
    var files: Files

    constructor ()
      ensures files == map[]
    {
      files := map[];
    }
  }

  class DailyLogFileHandler {
    const dir: LogDirectory
    const backupCount: nat
    var rolloverDate: Option<int>
    var rolloverSuffix: nat
    var lastPruned: Option<int>

    constructor (dir: LogDirectory, backupCount: nat)
      ensures this.dir == dir && this.backupCount == backupCount && State() == FRESH
    {
      this.dir, this.backupCount := dir, backupCount;
      rolloverDate, rolloverSuffix, lastPruned := None, 0, None;
    }

    ghost function State(): Handler
      reads this
    {
      Handler(rolloverDate, rolloverSuffix, lastPruned)
    }

    /** Terminates: each step passes a file that exists. */
    method ResolveSuffix(day: int) returns (suffix: nat)
      ensures FirstNotFull(dir.files, day, suffix)
    {
      suffix := 0;
      ghost var ahead := set name | name in dir.files && name.day == day;
      while Size(dir.files, Name(day, suffix)) >= MAX_BYTES
        invariant forall s: nat :: s < suffix ==> Full(dir.files, day, s)
        invariant forall name :: name in dir.files && name.day == day && name.suffix >= suffix ==> name in ahead
        decreases ahead
      {
        assert Name(day, suffix) in ahead;
        ahead := ahead - {Name(day, suffix)};
        suffix := suffix + 1;
      }
    }

    method Emit(line: string, today: int) returns (ghost s: nat)
      modifies this, dir
      ensures EmitsInto(old(dir.files), old(State()), line, today, backupCount, s, dir.files, State())
    {
      if rolloverDate != Some(today) {
        rolloverDate := Some(today);
        rolloverSuffix := ResolveSuffix(today);
      }
      s := rolloverSuffix;
      var path := Name(today, rolloverSuffix);
      dir.files := Appended(dir.files, path, line);
      if Size(dir.files, path) >= MAX_BYTES {
        rolloverSuffix := rolloverSuffix + 1;
      }
      if lastPruned != Some(today) {
        dir.files := Pruned(dir.files, today, backupCount);
        lastPruned := Some(today);
      }
    }
  }

  // ------------------------------------------------------------------ a day with many handlers

  /** One directory, its handlers, and where each emitted line of the day went, in order. */
  datatype Day = Day(files: Files, handlers: seq<Handler>, log: seq<(nat, string)>)

  /** A handler emits, or its process is restarted with a new handler object. */
  ghost predicate Emitted(d: Day, d': Day, i: nat, line: string, day: int, backupCount: nat, s: nat) {
    && i < |d.handlers|
    && |d'.handlers| == |d.handlers|
    && EmitsInto(d.files, d.handlers[i], line, day, backupCount, s, d'.files, d'.handlers[i])
    && d'.handlers == d.handlers[i := d'.handlers[i]]
    && d'.log == d.log + [(s, line)]
  }

  ghost predicate Restarted(d: Day, d': Day, i: nat) {
    i < |d.handlers| && d' == d.(handlers := d.handlers[i := FRESH])
  }

  ghost predicate Next(d: Day, d': Day, day: int, backupCount: nat, longest: nat) {
    || (exists i, line, s :: Emitted(d, d', i, line, day, backupCount, s) && |line| + 1 <= longest)
    || (exists i :: Restarted(d, d', i))
  }

  /** The lines of the log that went into one suffix. */
  function LoggedIn(log: seq<(nat, string)>, s: nat): seq<string> {
    if log == [] then []
    else LoggedIn(log[..|log| - 1], s) + if log[|log| - 1].0 == s then [log[|log| - 1].1] else []
  }

  /** Handlers of the day that may still write to suffix `s` or below. */
  function Behind(handlers: seq<Handler>, day: int, s: nat): nat {
    if handlers == [] then 0
    else Behind(handlers[..|handlers| - 1], day, s) + if MayWrite(handlers[|handlers| - 1], day, s) then 1 else 0
  }

  predicate MayWrite(h: Handler, day: int, s: nat) { h.date == Some(day) && h.suffix <= s }

  /** Everything below a handler's suffix is full. */
  ghost predicate FullBelow(d: Day, day: int) {
    forall i, s: nat :: 0 <= i < |d.handlers| && d.handlers[i].date == Some(day) && s < d.handlers[i].suffix ==>
      Full(d.files, day, s)
  }

  /** A file is only ever begun when all lower ones are full. */
  ghost predicate NoGaps(files: Files, day: int) {
    forall s: nat, t: nat :: s < t && Lines(files, Name(day, t)) != [] ==> Full(files, day, s)
  }

  /** So many times `n`. */
  function Times(count: int, n: nat): (t: nat)
    decreases count
  {
    if count <= 0 then 0 else Times(count - 1, n) + n
  }

  lemma {:induction false} TimesIs(count: nat, n: nat)
    ensures Times(count, n) == count * n
  {
    if count > 0 {
      TimesIs(count - 1, n);
      assert (count - 1) * n + n == count * n;
    }
  }

  function Allowance(handlers: seq<Handler>, day: int, s: nat, longest: nat): int {
    MAX_BYTES - 1 + Times(|handlers| - Behind(handlers, day, s), longest)
  }

  /** A file over the cap got there by at most one record of each handler that has moved on. */
  ghost predicate Bounded(d: Day, day: int, longest: nat) {
    forall s: nat :: Full(d.files, day, s) ==> Size(d.files, Name(day, s)) <= Allowance(d.handlers, day, s, longest)
  }

  /** Nothing is lost, overwritten or reordered: every file is exactly its share of the log. */
  ghost predicate Conserved(d: Day, day: int) {
    forall s: nat :: Lines(d.files, Name(day, s)) == LoggedIn(d.log, s)
  }

  ghost predicate Inv(d: Day, day: int, longest: nat) {
    FullBelow(d, day) && NoGaps(d.files, day) && Bounded(d, day, longest) && Conserved(d, day)
  }

  /** The morning of a day: no file of that day, no handler that knows it. */
  ghost predicate Morning(d: Day, day: int) {
    && d.log == []
    && (forall name :: name in d.files ==> name.day != day)
    && (forall i :: 0 <= i < |d.handlers| ==> d.handlers[i].date != Some(day))
  }

  lemma {:induction false} BehindBounds(handlers: seq<Handler>, day: int, s: nat)
    ensures Behind(handlers, day, s) <= |handlers|
    ensures (exists i :: 0 <= i < |handlers| && !MayWrite(handlers[i], day, s)) ==>
      Behind(handlers, day, s) < |handlers|
  {
    if handlers != [] {
      BehindBounds(handlers[..|handlers| - 1], day, s);
      assert forall i :: 0 <= i < |handlers| - 1 ==> handlers[..|handlers| - 1][i] == handlers[i];
    }
  }

  lemma {:induction false} BehindUpdate(handlers: seq<Handler>, i: nat, h: Handler, day: int, s: nat)
    requires i < |handlers|
    ensures Behind(handlers[i := h], day, s) ==
      Behind(handlers, day, s)
      - (if MayWrite(handlers[i], day, s) then 1 else 0) + (if MayWrite(h, day, s) then 1 else 0)
  {
    var updated := handlers[i := h];
    var init := handlers[..|handlers| - 1];
    if i == |handlers| - 1 {
      assert updated[..|updated| - 1] == init;
    } else {
      BehindUpdate(init, i, h, day, s);
      assert updated[..|updated| - 1] == init[i := h];
    }
  }

  /** Pruning never touches the day itself. */
  lemma PrunedKeepsToday(files: Files, name: Name, backupCount: nat)
    ensures Lines(Pruned(files, name.day, backupCount), name) == Lines(files, name)
  {
  }

  lemma SizeAfter(files: Files, name: Name, line: string, today: int, backupCount: nat, prunes: bool)
    requires name.day == today
    ensures var written := Appended(files, name, line);
      var after := if prunes then Pruned(written, today, backupCount) else written;
      && Lines(after, name) == Lines(files, name) + [line]
      && Size(after, name) == Size(files, name) + |line| + 1
      && forall other: Name :: other.day == today && other != name ==> Lines(after, other) == Lines(files, other)
  {
    var lines := Lines(files, name) + [line];
    assert lines[..|lines| - 1] == Lines(files, name);
    var written := Appended(files, name, line);
    forall other: Name | other.day == today
      ensures Lines(Pruned(written, today, backupCount), other) == Lines(written, other)
    {
      PrunedKeepsToday(written, other, backupCount);
    }
  }

  lemma EmitKeepsFullBelow(d: Day, d': Day, i: nat, line: string, day: int, backupCount: nat, s: nat)
    requires FullBelow(d, day) && NoGaps(d.files, day) && Emitted(d, d', i, line, day, backupCount, s)
    ensures FullBelow(d', day) && NoGaps(d'.files, day)
    ensures forall t: nat :: t < s ==> Full(d.files, day, t)
    ensures forall t: nat :: Full(d.files, day, t) ==> Full(d'.files, day, t)
    ensures d.handlers[i].date != Some(day) ==> !Full(d.files, day, s)
  {
    SizeAfter(d.files, Name(day, s), line, day, backupCount, d.handlers[i].pruned != Some(day));
    SizeAfter(d.files, Name(day, s), line, day, backupCount, false);
    forall t: nat | Full(d.files, day, t) ensures Full(d'.files, day, t) {
      assert t != s ==> Lines(d'.files, Name(day, t)) == Lines(d.files, Name(day, t));
    }
    forall t: nat, u: nat | t < u && Lines(d'.files, Name(day, u)) != [] ensures Full(d'.files, day, t) {
      assert u != s ==> Lines(d'.files, Name(day, u)) == Lines(d.files, Name(day, u));
      assert Full(d.files, day, t);
    }
  }

  lemma EmitKeepsConserved(d: Day, d': Day, i: nat, line: string, day: int, backupCount: nat, s: nat)
    requires Conserved(d, day) && Emitted(d, d', i, line, day, backupCount, s)
    ensures Conserved(d', day)
  {
    SizeAfter(d.files, Name(day, s), line, day, backupCount, d.handlers[i].pruned != Some(day));
    assert d'.log[..|d'.log| - 1] == d.log;
    forall t: nat ensures Lines(d'.files, Name(day, t)) == LoggedIn(d'.log, t) {
      assert Lines(d.files, Name(day, t)) == LoggedIn(d.log, t);
      assert t != s ==> Lines(d'.files, Name(day, t)) == Lines(d.files, Name(day, t));
    }
  }

  /** Over a file that the emit does not write, the emitter gains no right. */
  lemma EmitterHadRight(d: Day, d': Day, i: nat, line: string, day: int, backupCount: nat, s: nat, t: nat)
    requires NoGaps(d.files, day) && Emitted(d, d', i, line, day, backupCount, s) && t != s && Full(d.files, day, t)
    ensures MayWrite(d'.handlers[i], day, t) ==> MayWrite(d.handlers[i], day, t)
  {
    assert Lines(d.files, Name(day, t)) != [];
    assert s < t ==> Full(d.files, day, s);
  }

  lemma EmitterLoses(d: Day, d': Day, i: nat, line: string, day: int, backupCount: nat, s: nat)
    requires Emitted(d, d', i, line, day, backupCount, s) && Full(d'.files, day, s)
    ensures !MayWrite(d'.handlers[i], day, s)
    ensures Full(d.files, day, s) ==> MayWrite(d.handlers[i], day, s)
  {
    SizeAfter(d.files, Name(day, s), line, day, backupCount, d.handlers[i].pruned != Some(day));
    SizeAfter(d.files, Name(day, s), line, day, backupCount, false);
  }

  lemma EmitKeepsBounded(d: Day, d': Day, i: nat, line: string, day: int, backupCount: nat, s: nat, longest: nat)
    requires Inv(d, day, longest) && Emitted(d, d', i, line, day, backupCount, s) && |line| + 1 <= longest
    ensures Bounded(d', day, longest)
  {
    SizeAfter(d.files, Name(day, s), line, day, backupCount, d.handlers[i].pruned != Some(day));
    forall t: nat | Full(d'.files, day, t)
      ensures Size(d'.files, Name(day, t)) <= Allowance(d'.handlers, day, t, longest)
    {
      BehindUpdate(d.handlers, i, d'.handlers[i], day, t);
      BehindBounds(d.handlers, day, t);
      var left, left' := |d.handlers| - Behind(d.handlers, day, t), |d'.handlers| - Behind(d'.handlers, day, t);
      if t != s {
        assert Lines(d'.files, Name(day, t)) == Lines(d.files, Name(day, t));
        EmitterHadRight(d, d', i, line, day, backupCount, s, t);
        TimesMonotone(left, left', longest);
      } else {
        EmitterLoses(d, d', i, line, day, backupCount, s);
        OneMoreTime(if Full(d.files, day, t) then left else 0, left', longest);
      }
    }
  }

  lemma OneMoreTime(a: nat, b: int, n: nat)
    ensures a < b ==> Times(a, n) + n <= Times(b, n)
  {
    TimesMonotone(a + 1, b, n);
  }

  lemma {:induction false} TimesMonotone(a: int, b: int, n: nat)
    ensures a <= b ==> Times(a, n) <= Times(b, n)
    decreases b
  {
    if a < b && b > 0 {
      TimesMonotone(a, b - 1, n);
    }
  }

  lemma RestartKeepsInv(d: Day, d': Day, i: nat, day: int, longest: nat)
    requires Inv(d, day, longest) && Restarted(d, d', i)
    ensures Inv(d', day, longest)
  {
    forall t: nat | Full(d'.files, day, t)
      ensures Size(d'.files, Name(day, t)) <= Allowance(d'.handlers, day, t, longest)
    {
      BehindUpdate(d.handlers, i, FRESH, day, t);
      assert Full(d.files, day, t);
      TimesMonotone(|d.handlers| - Behind(d.handlers, day, t), |d'.handlers| - Behind(d'.handlers, day, t), longest);
    }
  }

  lemma InvStep(d: Day, d': Day, day: int, backupCount: nat, longest: nat)
    requires Inv(d, day, longest) && Next(d, d', day, backupCount, longest)
    ensures Inv(d', day, longest) && |d'.handlers| == |d.handlers|
  {
    if i, line, s :| Emitted(d, d', i, line, day, backupCount, s) && |line| + 1 <= longest {
      EmitKeepsFullBelow(d, d', i, line, day, backupCount, s);
      EmitKeepsConserved(d, d', i, line, day, backupCount, s);
      EmitKeepsBounded(d, d', i, line, day, backupCount, s, longest);
    } else {
      var i :| Restarted(d, d', i);
      RestartKeepsInv(d, d', i, day, longest);
    }
  }

  lemma MorningInv(d: Day, day: int, longest: nat)
    requires Morning(d, day)
    ensures Inv(d, day, longest)
  {
    assert forall s: nat :: Name(day, s).day == day;
    assert forall s: nat :: Name(day, s) !in d.files;
    assert forall s: nat :: Lines(d.files, Name(day, s)) == [] && !Full(d.files, day, s);
  }

  /** A run of the day, from its morning to its last state. */
  ghost predicate DayRun(days: seq<Day>, day: int, backupCount: nat, longest: nat) {
    && days != []
    && if |days| == 1 then Morning(days[0], day)
       else DayRun(days[..|days| - 1], day, backupCount, longest)
            && Next(days[|days| - 2], days[|days| - 1], day, backupCount, longest)
  }

  /** Any number of handlers on one directory, restarts included: files below a handler's suffix
      are full, and every emitted line is in exactly one file and in order. */
  lemma {:induction false} RolloverRun(days: seq<Day>, day: int, backupCount: nat, longest: nat)
    requires DayRun(days, day, backupCount, longest)
    ensures Inv(days[|days| - 1], day, longest) && |days[|days| - 1].handlers| == |days[0].handlers|
  {
    if |days| == 1 {
      MorningInv(days[0], day, longest);
    } else {
      var before := days[..|days| - 1];
      RolloverRun(before, day, backupCount, longest);
      InvStep(before[|before| - 1], days[|days| - 1], day, backupCount, longest);
    }
  }

  predicate Retained(name: Name, day: int, backupCount: nat) { backupCount == 0 || day - name.day < backupCount }

  /** Old files are gone once something was logged; the retained ones of other days are as they were. */
  ghost predicate KeptDays(morning: Day, d: Day, day: int, backupCount: nat) {
    && (forall i :: 0 <= i < |d.handlers| && d.handlers[i].pruned == Some(day) ==> d.log != [])
    && (forall name :: name in d.files && d.log != [] ==> Retained(name, day, backupCount))
    && (forall name: Name :: name.day != day && Retained(name, day, backupCount) ==>
          Lines(d.files, name) == Lines(morning.files, name))
  }

  lemma EmitKeepsDays(morning: Day, d: Day, d': Day, i: nat, line: string, day: int, backupCount: nat, s: nat)
    requires KeptDays(morning, d, day, backupCount) && Emitted(d, d', i, line, day, backupCount, s)
    ensures KeptDays(morning, d', day, backupCount)
  {
    var written := Appended(d.files, Name(day, s), line);
    forall name: Name ensures name in Pruned(written, day, backupCount) <==>
                              name in written && Retained(name, day, backupCount)
    {
      PrunedKeepsLastDays(written, day, backupCount, name);
    }
  }

  /** Through a day of any handlers and restarts, the first record clears away exactly the files of the
      days before the last `backupCount`. */
  lemma {:induction false} OldFilesGo(days: seq<Day>, day: int, backupCount: nat, longest: nat)
    requires DayRun(days, day, backupCount, longest)
    requires forall i :: 0 <= i < |days[0].handlers| ==> days[0].handlers[i].pruned != Some(day)
    ensures KeptDays(days[0], days[|days| - 1], day, backupCount)
  {
    if |days| > 1 {
      var before := days[..|days| - 1];
      OldFilesGo(before, day, backupCount, longest);
      OldFilesGoStep(days[0], before[|before| - 1], days[|days| - 1], day, backupCount, longest);
    }
  }

  lemma OldFilesGoStep(morning: Day, d: Day, d': Day, day: int, backupCount: nat, longest: nat)
    requires KeptDays(morning, d, day, backupCount) && Next(d, d', day, backupCount, longest)
    ensures KeptDays(morning, d', day, backupCount)
  {
    if i: nat, line: string, s: nat :| Emitted(d, d', i, line, day, backupCount, s) && |line| + 1 <= longest {
      EmitKeepsDays(morning, d, d', i, line, day, backupCount, s);
    }
  }

  /** No file passes the cap by more than one longest line per handler. */
  lemma CapPlusOneLinePerHandler(days: seq<Day>, day: int, backupCount: nat, longest: nat, s: nat)
    requires DayRun(days, day, backupCount, longest)
    ensures Size(days[|days| - 1].files, Name(day, s)) <= MAX_BYTES - 1 + |days[0].handlers| * longest
  {
    RolloverRun(days, day, backupCount, longest);
    WithinCap(days[|days| - 1], day, longest, s);
  }

  lemma WithinCap(d: Day, day: int, longest: nat, s: nat)
    requires Bounded(d, day, longest)
    ensures Size(d.files, Name(day, s)) <= MAX_BYTES - 1 + |d.handlers| * longest
  {
    BehindBounds(d.handlers, day, s);
    TimesMonotone(|d.handlers| - Behind(d.handlers, day, s), |d.handlers|, longest);
    TimesIs(|d.handlers|, longest);
    if Full(d.files, day, s) {
    }
  }

  /** With one handler the suffix in use is always the first file that is not full. */
  ghost predicate AtFirstGap(d: Day, day: int) {
    |d.handlers| == 1 && (d.handlers[0].date == Some(day) ==> FirstNotFull(d.files, day, d.handlers[0].suffix))
  }

  lemma AtFirstGapEmit(d: Day, d': Day, i: nat, line: string, day: int, backupCount: nat, s: nat)
    requires AtFirstGap(d, day) && FullBelow(d, day) && NoGaps(d.files, day)
    requires Emitted(d, d', i, line, day, backupCount, s)
    ensures AtFirstGap(d', day)
  {
    SizeAfter(d.files, Name(day, s), line, day, backupCount, d.handlers[i].pruned != Some(day));
    SizeAfter(d.files, Name(day, s), line, day, backupCount, false);
    EmitKeepsFullBelow(d, d', i, line, day, backupCount, s);
    assert !Full(d.files, day, s);
    assert Lines(d.files, Name(day, s + 1)) == [];
    assert Lines(d'.files, Name(day, s + 1)) == Lines(d.files, Name(day, s + 1));
    assert Size(d'.files, Name(day, s + 1)) == 0;
  }

  lemma {:induction false} SingleHandlerAtFirstGap(days: seq<Day>, day: int, backupCount: nat, longest: nat)
    requires DayRun(days, day, backupCount, longest) && |days[0].handlers| == 1
    ensures AtFirstGap(days[|days| - 1], day)
  {
    if |days| > 1 {
      var before := days[..|days| - 1];
      SingleHandlerAtFirstGap(before, day, backupCount, longest);
      RolloverRun(before, day, backupCount, longest);
      AtFirstGapStep(before[|before| - 1], days[|days| - 1], day, backupCount, longest);
    }
  }

  lemma AtFirstGapStep(d: Day, d': Day, day: int, backupCount: nat, longest: nat)
    requires AtFirstGap(d, day) && FullBelow(d, day) && NoGaps(d.files, day) && Next(d, d', day, backupCount, longest)
    ensures AtFirstGap(d', day)
  {
    if i: nat, line: string, s: nat :| Emitted(d, d', i, line, day, backupCount, s) && |line| + 1 <= longest {
      AtFirstGapEmit(d, d', i, line, day, backupCount, s);
    }
  }

  /** So a restart in mid-day resumes exactly where the old handler was. */
  lemma RestartResumes(days: seq<Day>, day: int, backupCount: nat, longest: nat, resolved: nat)
    requires DayRun(days, day, backupCount, longest) && |days[0].handlers| == 1
    requires var now := days[|days| - 1];
      now.handlers != [] && now.handlers[0].date == Some(day) && FirstNotFull(now.files, day, resolved)
    ensures resolved == days[|days| - 1].handlers[0].suffix
  {
    SingleHandlerAtFirstGap(days, day, backupCount, longest);
    FirstNotFullUnique(days[|days| - 1].files, day, resolved, days[|days| - 1].handlers[0].suffix);
  }

  lemma FirstNotFullUnique(files: Files, day: int, s: nat, t: nat)
    requires FirstNotFull(files, day, s) && FirstNotFull(files, day, t)
    ensures s == t
  {
    assert s < t ==> Full(files, day, s);
    assert t < s ==> Full(files, day, t);
  }
}
