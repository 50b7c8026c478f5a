/** The daily log files when handlers of several processes interleave inside an emit: finding the
    suffix, writing the line and checking the size are steps of their own. */
module DailyLogSteps {
  import opened Wrappers
  import opened DailyLog

  /** Where a handler stands in one emit; within a process the handler's lock keeps emits apart. */
  datatype Pc = Idle | Writing(line: string) | Checking

  datatype Worker = Worker(handler: Handler, pc: Pc)

  datatype Sys = Sys(files: Files, workers: seq<Worker>, log: seq<(nat, string)>)

  datatype Step =
    | Resolve(i: nat, line: string, s: nat)  // the suffix in use, or found by scanning on a new day
    | Write(i: nat)
    | Check(i: nat)
    | Restart(i: nat)  // the process of the handler ends, wherever it stands, and starts again

  /** What the step does; the prune of older days is DailyLog's and never touches this one. */
  ghost predicate Taken(u: Sys, step: Step, u': Sys, day: int) {
    && step.i < |u.workers|
    && var w := u.workers[step.i];
       match step
       case Resolve(i, line, s) =>
         && w.pc.Idle?
         && (if w.handler.date == Some(day) then s == w.handler.suffix else FirstNotFull(u.files, day, s))
         && u' == u.(workers := u.workers[i := Worker(w.handler.(date := Some(day), suffix := s), Writing(line))])
       case Write(i) =>
         && w.pc.Writing? && w.handler.date.Some?
         && u' == Sys(Appended(u.files, Name(w.handler.date.value, w.handler.suffix), w.pc.line),
                      u.workers[i := w.(pc := Checking)],
                      if w.handler.date == Some(day) then u.log + [(w.handler.suffix, w.pc.line)] else u.log)
       case Check(i) =>
         && w.pc.Checking? && w.handler.date.Some?
         && var full := Full(u.files, w.handler.date.value, w.handler.suffix);
            var s := if full then w.handler.suffix + 1 else w.handler.suffix;
            u' == u.(workers := u.workers[i := Worker(w.handler.(suffix := s), Idle)])
       case Restart(i) => u' == u.(workers := u.workers[i := Worker(FRESH, Idle)])
  }

  /** Taken one after the other without another worker's step, they are one emit after the day's prune. */
  lemma EmitIsItsSteps(u: Sys, v: Sys, w: Sys, x: Sys, i: nat, line: string, s: nat, day: int, backupCount: nat)
    ensures Taken(u, Resolve(i, line, s), v, day) && Taken(v, Write(i), w, day) && Taken(w, Check(i), x, day) ==>
      && |x.workers| == |u.workers| && x.log == u.log + [(s, line)]
      && (u.workers[i].handler.pruned == Some(day) ==>
            EmitsInto(u.files, u.workers[i].handler, line, day, backupCount, s, x.files, x.workers[i].handler))
  {
  }

  predicate Short(w: Worker, longest: nat) { w.pc.Writing? ==> |w.pc.line| + 1 <= longest }

  /** The handler may still write to suffix `s` while that file is full. */
  predicate MayStillWrite(w: Worker, day: int, s: nat) {
    w.handler.date == Some(day) && w.handler.suffix <= s && !(w.pc.Checking? && w.handler.suffix == s)
  }

  function Behind(workers: seq<Worker>, day: int, s: nat): nat {
    if workers == [] then 0
    else Behind(workers[..|workers| - 1], day, s) + if MayStillWrite(workers[|workers| - 1], day, s) then 1 else 0
  }

  function Allowance(workers: seq<Worker>, day: int, s: nat, longest: nat): int {
    MAX_BYTES - 1 + Times(|workers| - Behind(workers, day, s), longest)
  }

  ghost predicate FullBelowAll(u: Sys, day: int) {
    forall i, s: nat ::
      0 <= i < |u.workers| && u.workers[i].handler.date == Some(day) && s < u.workers[i].handler.suffix ==>
        Full(u.files, day, s)
  }

  ghost predicate BoundedAll(u: Sys, day: int, longest: nat) {
    forall s: nat :: Full(u.files, day, s) ==> Size(u.files, Name(day, s)) <= Allowance(u.workers, day, s, longest)
  }

  ghost predicate ConservedAll(u: Sys, day: int) {
    forall s: nat :: Lines(u.files, Name(day, s)) == LoggedIn(u.log, s)
  }

  ghost predicate InvAll(u: Sys, day: int, longest: nat) {
    && FullBelowAll(u, day) && NoGaps(u.files, day) && ConservedAll(u, day) && BoundedAll(u, day, longest)
    && forall i :: 0 <= i < |u.workers| ==> Short(u.workers[i], longest)
  }

  lemma {:induction false} BehindAtMost(workers: seq<Worker>, day: int, s: nat)
    ensures Behind(workers, day, s) <= |workers|
    ensures (exists i :: 0 <= i < |workers| && !MayStillWrite(workers[i], day, s)) ==>
      Behind(workers, day, s) < |workers|
  {
    if workers != [] {
      BehindAtMost(workers[..|workers| - 1], day, s);
      assert forall i :: 0 <= i < |workers| - 1 ==> workers[..|workers| - 1][i] == workers[i];
    }
  }

  lemma {:induction false} BehindAfter(workers: seq<Worker>, i: nat, w: Worker, day: int, s: nat)
    requires i < |workers|
    ensures Behind(workers[i := w], day, s) ==
      Behind(workers, day, s)
      - (if MayStillWrite(workers[i], day, s) then 1 else 0) + (if MayStillWrite(w, day, s) then 1 else 0)
  {
    var updated, init := workers[i := w], workers[..|workers| - 1];
    if i == |workers| - 1 {
      assert updated[..|updated| - 1] == init;
    } else {
      BehindAfter(init, i, w, day, s);
      assert updated[..|updated| - 1] == init[i := w];
    }
  }

  /** A step that writes nothing loosens no bound: its handler gains no right to a full file. */
  lemma QuietStepKeepsBound(u: Sys, i: nat, w: Worker, day: int, longest: nat)
    requires i < |u.workers| && BoundedAll(u, day, longest)
    requires forall s: nat :: Full(u.files, day, s) && MayStillWrite(w, day, s) ==> MayStillWrite(u.workers[i], day, s)
    ensures BoundedAll(u.(workers := u.workers[i := w]), day, longest)
  {
    forall s: nat | Full(u.files, day, s)
      ensures Size(u.files, Name(day, s)) <= Allowance(u.workers[i := w], day, s, longest)
    {
      BehindAfter(u.workers, i, w, day, s);
      TimesMonotone(|u.workers| - Behind(u.workers, day, s),
                    |u.workers| - Behind(u.workers[i := w], day, s), longest);
    }
  }

  /** A full file is not empty, so the lower ones are full too. */
  lemma FullDownwards(files: Files, day: int, s: nat, t: nat)
    requires NoGaps(files, day) && Full(files, day, t) && s <= t
    ensures Full(files, day, s)
  {
    assert Lines(files, Name(day, t)) != [];
  }

  lemma ResolveKeeps(u: Sys, step: Step, u': Sys, day: int, longest: nat)
    requires InvAll(u, day, longest) && step.Resolve? && Taken(u, step, u', day) && |step.line| + 1 <= longest
    ensures InvAll(u', day, longest)
  {
    var w := u'.workers[step.i];
    forall s: nat | Full(u.files, day, s) && MayStillWrite(w, day, s)
      ensures MayStillWrite(u.workers[step.i], day, s)
    {
      if u.workers[step.i].handler.date != Some(day) {
        FullDownwards(u.files, day, step.s, s);
      }
    }
    QuietStepKeepsBound(u, step.i, w, day, longest);
  }

  lemma CheckKeeps(u: Sys, step: Step, u': Sys, day: int, longest: nat)
    requires InvAll(u, day, longest) && step.Check? && Taken(u, step, u', day)
    ensures InvAll(u', day, longest)
  {
    var w, w' := u.workers[step.i], u'.workers[step.i];
    forall s: nat | Full(u.files, day, s) && MayStillWrite(w', day, s) ensures MayStillWrite(w, day, s) {
      if w.handler.date == Some(day) && w.handler.suffix <= s {
        FullDownwards(u.files, day, w.handler.suffix, s);
      }
    }
    QuietStepKeepsBound(u, step.i, w', day, longest);
  }

  lemma WriteKeeps(u: Sys, step: Step, u': Sys, day: int, longest: nat)
    requires InvAll(u, day, longest) && step.Write? && Taken(u, step, u', day)
    requires u.workers[step.i].handler.date == Some(day)
    ensures InvAll(u', day, longest)
  {
    var w := u.workers[step.i];
    var s, line := w.handler.suffix, w.pc.line;
    SizeAfter(u.files, Name(day, s), line, day, 0, false);
    WriteKeepsFull(u, step, u', day);
    WriteKeepsBound(u, step, u', day, longest);
    assert u'.log[..|u'.log| - 1] == u.log;
    forall t: nat ensures Lines(u'.files, Name(day, t)) == LoggedIn(u'.log, t) {
      assert Lines(u.files, Name(day, t)) == LoggedIn(u.log, t);
      assert t != s ==> Lines(u'.files, Name(day, t)) == Lines(u.files, Name(day, t));
    }
  }

  /** A write that began before midnight goes to the file of its own day. */
  lemma LateWriteKeeps(u: Sys, step: Step, u': Sys, day: int, longest: nat)
    requires InvAll(u, day, longest) && step.Write? && Taken(u, step, u', day)
    requires u.workers[step.i].handler.date != Some(day)
    ensures InvAll(u', day, longest)
  {
    var w := u.workers[step.i];
    QuietStepKeepsBound(u, step.i, w.(pc := Checking), day, longest);
    assert forall t: nat :: Name(day, t).day != w.handler.date.value;
    assert forall t: nat :: Lines(u'.files, Name(day, t)) == Lines(u.files, Name(day, t));
    assert forall t: nat :: Full(u'.files, day, t) == Full(u.files, day, t);
  }

  lemma WriteKeepsFull(u: Sys, step: Step, u': Sys, day: int)
    requires FullBelowAll(u, day) && NoGaps(u.files, day) && step.Write? && Taken(u, step, u', day)
    requires u.workers[step.i].handler.date == Some(day)
    ensures FullBelowAll(u', day) && NoGaps(u'.files, day)
    ensures forall t: nat :: Full(u.files, day, t) ==> Full(u'.files, day, t)
  {
    var s := u.workers[step.i].handler.suffix;
    SizeAfter(u.files, Name(day, s), u.workers[step.i].pc.line, day, 0, false);
    forall t: nat | Full(u.files, day, t) ensures Full(u'.files, day, t) {
      assert t != s ==> Lines(u'.files, Name(day, t)) == Lines(u.files, Name(day, t));
    }
    forall t: nat, v: nat | t < v && Lines(u'.files, Name(day, v)) != [] ensures Full(u'.files, day, t) {
      assert v != s ==> Lines(u'.files, Name(day, v)) == Lines(u.files, Name(day, v));
      assert Full(u.files, day, t);
    }
  }

  lemma WriteKeepsBound(u: Sys, step: Step, u': Sys, day: int, longest: nat)
    requires BoundedAll(u, day, longest) && step.Write? && Taken(u, step, u', day)
    requires u.workers[step.i].handler.date == Some(day)
    requires |u.workers[step.i].pc.line| + 1 <= longest
    ensures BoundedAll(u', day, longest)
  {
    var w, w' := u.workers[step.i], u'.workers[step.i];
    var s := w.handler.suffix;
    SizeAfter(u.files, Name(day, s), w.pc.line, day, 0, false);
    forall t: nat | Full(u'.files, day, t)
      ensures Size(u'.files, Name(day, t)) <= Allowance(u'.workers, day, t, longest)
    {
      BehindAfter(u.workers, step.i, w', day, t);
      BehindAtMost(u'.workers, day, t);
      var left, left' := |u.workers| - Behind(u.workers, day, t), |u'.workers| - Behind(u'.workers, day, t);
      if t != s {
        assert Lines(u'.files, Name(day, t)) == Lines(u.files, Name(day, t));
        TimesMonotone(left, left', longest);
      } else if Full(u.files, day, t) {
        OneMoreTime(left, left', longest);
      } else {
        assert !MayStillWrite(w', day, t);
        OneMoreTime(0, left', longest);
      }
    }
  }

  lemma RestartKeeps(u: Sys, step: Step, u': Sys, day: int, longest: nat)
    requires InvAll(u, day, longest) && step.Restart? && Taken(u, step, u', day)
    ensures InvAll(u', day, longest)
  {
    QuietStepKeepsBound(u, step.i, Worker(FRESH, Idle), day, longest);
  }

  /** The morning of a day: no file of that day, and no handler that knows it; a handler may still be
      inside an emit of the day before. */
  ghost predicate MorningOf(u: Sys, day: int, longest: nat) {
    && u.log == []
    && (forall name :: name in u.files ==> name.day != day)
    && (forall i :: 0 <= i < |u.workers| ==> u.workers[i].handler.date != Some(day) && Short(u.workers[i], longest))
  }

  /** A run of steps with no line longer than `longest`, its line end included. */
  ghost predicate StepRun(us: seq<Sys>, steps: seq<Step>, day: int, longest: nat) {
    && |us| == |steps| + 1 && MorningOf(us[0], day, longest)
    && forall k :: 0 <= k < |steps| ==>
         Taken(us[k], steps[k], us[k + 1], day) && (steps[k].Resolve? ==> |steps[k].line| + 1 <= longest)
  }

  lemma InvAllStep(u: Sys, step: Step, u': Sys, day: int, longest: nat)
    requires InvAll(u, day, longest) && Taken(u, step, u', day)
    requires step.Resolve? ==> |step.line| + 1 <= longest
    ensures InvAll(u', day, longest) && |u'.workers| == |u.workers|
  {
    match step
    case Resolve(_, _, _) => ResolveKeeps(u, step, u', day, longest);
    case Write(i) =>
      if u.workers[i].handler.date == Some(day) {
        WriteKeeps(u, step, u', day, longest);
      } else {
        LateWriteKeeps(u, step, u', day, longest);
      }
    case Check(_) => CheckKeeps(u, step, u', day, longest);
    case Restart(_) => RestartKeeps(u, step, u', day, longest);
  }

  lemma MorningHolds(u: Sys, day: int, longest: nat)
    requires MorningOf(u, day, longest)
    ensures InvAll(u, day, longest)
  {
    assert forall s: nat :: Name(day, s).day == day;
    assert forall s: nat :: Name(day, s) !in u.files;
    assert forall s: nat :: Lines(u.files, Name(day, s)) == [] && !Full(u.files, day, s);
  }

  /** Over every interleaving of any number of handlers, crashes inside an emit included: files below a
      suffix are full, no file is begun above one that is not, and every line written is in exactly one
      file and in order. */
  lemma {:induction false} InterleavedRollover(us: seq<Sys>, steps: seq<Step>, day: int, longest: nat)
    requires StepRun(us, steps, day, longest)
    ensures InvAll(us[|steps|], day, longest) && |us[|steps|].workers| == |us[0].workers|
  {
    if steps == [] {
      MorningHolds(us[0], day, longest);
    } else {
      var n := |steps| - 1;
      InterleavedRollover(us[..n + 1], steps[..n], day, longest);
      InvAllStep(us[n], steps[n], us[n + 1], day, longest);
    }
  }

  /** And no file passes the cap by more than one longest line per handler. */
  lemma InterleavedCap(us: seq<Sys>, steps: seq<Step>, day: int, longest: nat, s: nat)
    requires StepRun(us, steps, day, longest)
    ensures Size(us[|steps|].files, Name(day, s)) <= MAX_BYTES - 1 + |us[0].workers| * longest
  {
    InterleavedRollover(us, steps, day, longest);
    var u := us[|steps|];
    BehindAtMost(u.workers, day, s);
    TimesMonotone(|u.workers| - Behind(u.workers, day, s), |u.workers|, longest);
    TimesIs(|u.workers|, longest);
    if Full(u.files, day, s) {
    }
  }
}
