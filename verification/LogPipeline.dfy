/** The size-rolled log files and the tailer that reads them: what of a day's log reaches the ring. */
module LogPipeline {
  import opened Wrappers
  import opened LogTailer
  import DailyLog

  /** The text of a file with one line end after each record. */
  function FileText(records: seq<string>): string {
    if records == [] then "" else FileText(records[..|records| - 1]) + (records[|records| - 1] + "\n")
  }

  /** The sizes the handler counts are those of the files' text. */
  lemma {:induction false} FileSizes(records: seq<string>)
    ensures |FileText(records)| == DailyLog.Bytes(records)
  {
    if records != [] {
      FileSizes(records[..|records| - 1]);
    }
  }

  /** The lines of some records; a record with a traceback has several. */
  function LinesOf(records: seq<string>): seq<string> {
    if records == [] then [] else LinesOf(records[..|records| - 1]) + Split(records[|records| - 1])
  }

  /** All records of a day, whatever file they went to. */
  function Records(log: seq<(nat, string)>): seq<string> {
    seq(|log|, i requires 0 <= i < |log| => log[i].1)
  }

  lemma {:induction false} SplitOfFile(records: seq<string>)
    ensures Split(FileText(records)) == LinesOf(records) + [""]
  {
    if records != [] {
      var init, last := records[..|records| - 1], records[|records| - 1];
      SplitOfFile(init);
      SplitInTwo(FileText(init), last + "\n");
      assert Complete(LinesOf(init) + [""]) == LinesOf(init) && Rest(LinesOf(init) + [""]) == "";
      assert "" + (last + "\n") == last + "\n";
      SplitClosed(last);
      assert LinesOf(init) + (Split(last) + [""]) == LinesOf(init) + Split(last) + [""];
    }
  }

  lemma SplitClosed(line: string)
    ensures Split(line + "\n") == Split(line) + [""]
  {
    SplitInTwo(line, "\n");
    SplitJoins(line);
    var rest := Rest(Split(line));
    assert '\n' !in rest by {
      assert Split(line)[|Split(line)| - 1] == rest;
    }
    OneLineClosed(rest);
    assert Complete(Split(line)) + [rest, ""] == Split(line) + [""];
  }

  lemma {:induction false} OneLineClosed(line: string)
    requires '\n' !in line
    ensures Split(line + "\n") == [line, ""]
  {
    if line == "" {
      assert line + "\n" == "\n" && "\n"[1..] == "";
    } else {
      OneLineClosed(line[1..]);
      assert (line + "\n")[1..] == line[1..] + "\n";
      assert [line[0]] + line[1..] == line;
    }
  }

  /** Records of suffix 0 are among all records, and are all of them exactly when nothing rolled over. */
  lemma {:induction false} PlainFileHolds(log: seq<(nat, string)>)
    ensures |LinesOf(DailyLog.LoggedIn(log, 0))| <= |LinesOf(Records(log))|
    ensures LinesOf(DailyLog.LoggedIn(log, 0)) == LinesOf(Records(log)) <==>
      forall k :: 0 <= k < |log| ==> log[k].0 == 0
  {
    if log != [] {
      var init, last := log[..|log| - 1], log[|log| - 1];
      PlainFileHolds(init);
      assert Records(log)[..|log| - 1] == Records(init);
      var plain, all := DailyLog.LoggedIn(init, 0), Records(init);
      if last.0 == 0 {
        assert (plain + [last.1])[..|plain|] == plain;
        SameFront(LinesOf(plain), LinesOf(all), Split(last.1));
      } else {
        assert plain + [] == plain;
        assert |LinesOf(Records(log))| > |LinesOf(all)|;
      }
    }
  }

  lemma SameFront(a: seq<string>, b: seq<string>, tail: seq<string>)
    ensures a + tail == b + tail <==> a == b
  {
    if a + tail == b + tail {
      assert |a| == |b|;
      assert a == (a + tail)[..|a|] && b == (b + tail)[..|b|];
    }
  }

  lemma {:induction false} FileTextJoins(a: seq<string>, b: seq<string>)
    ensures FileText(a + b) == FileText(a) + FileText(b)
  {
    if b == [] {
      assert a + b == a;
    } else {
      FileTextJoins(a, b[..|b| - 1]);
      assert (a + b)[..|a + b| - 1] == a + b[..|b| - 1];
    }
  }

  lemma {:induction false} LinesOfJoins(a: seq<string>, b: seq<string>)
    ensures LinesOf(a + b) == LinesOf(a) + LinesOf(b) && |LinesOf(b)| >= |b|
  {
    if b == [] {
      assert a + b == a;
    } else {
      LinesOfJoins(a, b[..|b| - 1]);
      assert (a + b)[..|a + b| - 1] == a + b[..|b| - 1];
    }
  }

  /** A tailer is started when the file holds the first `k` of these records, and its last poll comes
      after the last of them. */
  ghost predicate Tails(day: int, file: Option<string>, plain: seq<string>, k: nat, events: seq<Event>) {
    && events != [] && events[|events| - 1].Poll?
    && k <= |plain| && file.GetOr("") == FileText(plain[..k])
    && TailRun(day, file, events).file.GetOr("") == FileText(plain)
  }

  /** It hands on exactly the lines of the records from the k-th on. */
  lemma TailedRecords(day: int, file: Option<string>, plain: seq<string>, k: nat, events: seq<Event>)
    requires Tails(day, file, plain, k, events)
    ensures Flat(TailRun(day, file, events).batches) == LinesOf(plain[k..])
  {
    var s := TailRun(day, file, events);
    TailingReadsOnce(day, file, events);
    FileTextJoins(plain[..k], plain[k..]);
    assert plain[..k] + plain[k..] == plain;
    assert Since(s, |file.GetOr("")|) == FileText(plain[k..]);
    SplitOfFile(plain[k..]);
    assert Flat(s.batches) == Complete(Flat(s.batches) + [s.tail.carry]);
    assert Complete(LinesOf(plain[k..]) + [""]) == LinesOf(plain[k..]);
  }

  lemma LaterRecordsAreFewer(plain: seq<string>, k: nat)
    requires k <= |plain|
    ensures |LinesOf(plain)| >= |LinesOf(plain[k..])| + k && (k == 0 ==> plain[k..] == plain)
  {
    LinesOfJoins(plain[..k], plain[k..]);
    LinesOfJoins([], plain[..k]);
    assert plain[..k] + plain[k..] == plain && [] + plain[..k] == plain[..k];
  }

  /** Any day of emits and restarts, a tailer started when the plain file held `k` records, and any
      polls up to a last one: it has handed on exactly the lines of the later records of suffix 0, and
      that is the whole log of the day exactly when it missed none and nothing rolled over. */
  lemma OnlyThePlainFileIsTailed(days: seq<DailyLog.Day>, day: int, backupCount: nat, longest: nat,
                                 file: Option<string>, k: nat, events: seq<Event>)
    requires DailyLog.DayRun(days, day, backupCount, longest)
    ensures var d := days[|days| - 1];
      var plain, handed := DailyLog.Lines(d.files, DailyLog.Name(day, 0)), Flat(TailRun(day, file, events).batches);
      && plain == DailyLog.LoggedIn(d.log, 0)
      && (Tails(day, file, plain, k, events) ==> handed == LinesOf(plain[k..]))
      && (Tails(day, file, plain, k, events) ==>
            (handed == LinesOf(Records(d.log)) <==> k == 0 && forall i :: 0 <= i < |d.log| ==> d.log[i].0 == 0))
  {
    var d := days[|days| - 1];
    DailyLog.RolloverRun(days, day, backupCount, longest);
    var plain := DailyLog.Lines(d.files, DailyLog.Name(day, 0));
    if Tails(day, file, plain, k, events) {
      TailedRecords(day, file, plain, k, events);
      LaterRecordsAreFewer(plain, k);
      PlainFileHolds(d.log);
    }
  }
}
