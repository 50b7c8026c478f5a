/** `LogFileTailer`: reads today's log file in chunks, hands complete lines to the ring and carries
    an unfinished last line over to the next poll. Positions count characters. */
module LogTailer {
  import opened Wrappers
  import opened LogRing

  /** Python's `text.split('\n')`. */
  function Split(text: string): (lines: seq<string>)
    ensures lines != []
  {
    if text == "" then [""] else Before(text[0], Split(text[1..]))
  }

  /** The lines of a text with one more character in front. */
  function Before(c: char, lines: seq<string>): (r: seq<string>)
    requires lines != []
    ensures r != []
  {
    if c == '\n' then [""] + lines else [[c] + lines[0]] + lines[1..]
  }

  function Complete(lines: seq<string>): seq<string>
    requires lines != []
  {
    lines[..|lines| - 1]
  }

  function Rest(lines: seq<string>): string
    requires lines != []
  {
    lines[|lines| - 1]
  }

  function Join(lines: seq<string>): string
    requires lines != []
  {
    if |lines| == 1 then lines[0] else lines[0] + "\n" + Join(lines[1..])
  }

  /** Splitting loses nothing and leaves no line end inside a line. */
  lemma {:induction false} SplitJoins(text: string)
    ensures Join(Split(text)) == text
    ensures forall i :: 0 <= i < |Split(text)| ==> '\n' !in Split(text)[i]
  {
    if text != "" {
      SplitJoins(text[1..]);
      var rest := Split(text[1..]);
      if text[0] == '\n' {
        assert Split(text)[1..] == rest;
      } else {
        assert ([[text[0]] + rest[0]] + rest[1..])[1..] == rest[1..];
      }
    }
  }

  lemma BeforeFirstPart(c: char, lines: seq<string>, more: seq<string>)
    requires lines != []
    ensures Before(c, lines + more) == Before(c, lines) + more
    ensures |lines| > 1 ==> Complete(Before(c, lines)) == Before(c, Complete(lines))
    ensures |lines| > 1 ==> Rest(Before(c, lines)) == Rest(lines)
  {
  }

  /** Splitting a text in two chunks, the first one's unfinished line carried over. */
  lemma {:induction false} SplitInTwo(a: string, b: string)
    ensures Split(a + b) == Complete(Split(a)) + Split(Rest(Split(a)) + b)
  {
    if a == "" {
      assert a + b == b && Rest(Split(a)) + b == b;
    } else {
      SplitInTwo(a[1..], b);
      assert (a + b)[1..] == a[1..] + b;
      SplitInTwoStep(a[0], Split(a[1..]), b, Split(a[1..] + b));
    }
  }

  lemma SplitInTwoStep(c: char, lines: seq<string>, b: string, whole: seq<string>)
    requires lines != [] && whole == Complete(lines) + Split(Rest(lines) + b)
    ensures Before(c, whole) == Complete(Before(c, lines)) + Split(Rest(Before(c, lines)) + b)
  {
    if |lines| > 1 {
      BeforeFirstPart(c, Complete(lines), Split(Rest(lines) + b));
      BeforeFirstPart(c, lines, []);
    } else if c != '\n' {
      var text := [c] + lines[0] + b;
      assert text[0] == c && text[1..] == lines[0] + b;
    }
  }

  /** What a poll does to the lines of the text read so far. */
  lemma CarryOver(done: seq<string>, carry: string, text: string, added: string)
    requires done + [carry] == Split(text)
    ensures var more := Split(carry + added);
      done + Complete(more) + [Rest(more)] == Split(text + added)
  {
    var lines, more := Split(text), Split(carry + added);
    SplitInTwo(text, added);
    assert Complete(lines) == done && Rest(lines) == carry;
    assert Complete(more) + [Rest(more)] == more;
    assert done + Complete(more) + [Rest(more)] == done + (Complete(more) + [Rest(more)]);
  }

  /** Where a tailer stands: the day whose file it reads, how far, and the unfinished line. */
  datatype Tail = Tail(day: Option<int>, pos: nat, carry: string)

  /** The tail a poll works from: reset on a new day, and when the file has become shorter. */
  function Prepared(t: Tail, today: int, file: Option<string>): Tail {
    var t := if t.day == Some(today) then t else Tail(Some(today), 0, "");
    if file.Some? && |file.value| < t.pos then Tail(Some(today), 0, "") else t
  }

  /** What a poll reads is the file past the position; a missing file is read again later. */
  function NewText(t: Tail, file: Option<string>): string {
    if file.Some? && t.pos <= |file.value| then file.value[t.pos..] else ""
  }

  function Polled(t: Tail, today: int, file: Option<string>): Tail {
    var p := Prepared(t, today, file);
    var added := NewText(p, file);
    if added == "" then p else Tail(p.day, p.pos + |added|, Rest(Split(p.carry + added)))
  }

  function HandedOn(t: Tail, today: int, file: Option<string>): seq<string> {
    var p := Prepared(t, today, file);
    var added := NewText(p, file);
    if added == "" then [] else Complete(Split(p.carry + added))
  }

  lemma FromItsStart(today: int, file: string)
    ensures var p := Tail(Some(today), 0, "");
      HandedOn(p, today, Some(file)) == Complete(Split(file))
      && Polled(p, today, Some(file)) == Tail(Some(today), |file|, Rest(Split(file)))
  {
    var p := Tail(Some(today), 0, "");
    assert Prepared(p, today, Some(file)) == p;
    assert NewText(p, Some(file)) == file && p.carry + file == file;
  }

  /** The file of a new day, and one that has become shorter, is read from its first line. */
  lemma ReadFromItsStart(t: Tail, today: int, file: string)
    requires t.day != Some(today) || |file| < t.pos
    ensures HandedOn(t, today, Some(file)) == Complete(Split(file))
    ensures Polled(t, today, Some(file)) == Tail(Some(today), |file|, Rest(Split(file)))
  {
    assert Prepared(t, today, Some(file)) == Tail(Some(today), 0, "");
    FromItsStart(today, file);
  }

  /** `_run` starts at the end of today's file, or nowhere when there is none. */
  function Started(today: int, file: Option<string>): Tail {
    if file.Some? then Tail(Some(today), |file.value|, "") else Tail(None, 0, "")
  }

  class LogFileTailer {
    const handler: RingBufferHandler
    const header: Header
    var currentDay: Option<int>
    var pos: nat
    var lineBuffer: string

    constructor (handler: RingBufferHandler, header: Header, today: int, file: Option<string>)
      ensures this.handler == handler && this.header == header && State() == Started(today, file)
    {
      this.handler, this.header, currentDay, pos, lineBuffer := handler, header, None, 0, "";
      if file.Some? {
        currentDay, pos := Some(today), |file.value|;
      }
    }

    ghost function State(): Tail
      reads this
    {
      Tail(currentDay, pos, lineBuffer)
    }

    method PollOnce(today: int, file: Option<string>)
      requires handler.Valid()
      modifies this, handler
      ensures handler.Valid() && State() == Polled(old(State()), today, file)
      ensures handler.State() == Run(old(handler.State()), handler.capacity,
                                     Tails(Parse(HandedOn(old(State()), today, file), header)))
    {
      if currentDay != Some(today) {
        currentDay, pos, lineBuffer := Some(today), 0, "";
      }
      if file.None? {
        return;
      }
      var size := |file.value|;
      if size < pos {
        pos, lineBuffer := 0, "";
      }
      if size <= pos {
        return;
      }
      var newText := file.value[pos..];
      pos := size;
      var lines := Split(lineBuffer + newText);
      lineBuffer := Rest(lines);
      var complete := Complete(lines);
      if complete == [] {
        return;
      }
      var entries := ParseLines(complete, header);
      PushAll(entries);
    }

    method PushAll(entries: seq<Entry>)
      requires handler.Valid()
      modifies handler
      ensures handler.Valid()
      ensures handler.State() == Run(old(handler.State()), handler.capacity, Tails(entries))
    {
      ghost var before := handler.State();
      for i := 0 to |entries|
        invariant handler.Valid()
        invariant handler.State() == Run(before, handler.capacity, Tails(entries[..i]))
      {
        handler.PushParsedEntry(entries[i]);
        assert Tails(entries[..i + 1])[..i] == Tails(entries[..i]);
      }
      assert entries[..|entries|] == entries;
    }
  }

  // ------------------------------------------------------------------ one day, any appends and polls

  datatype Event = Append(text: string) | Poll

  /** The file of the day, the tailer, and the batches of lines handed on so far. */
  datatype Tailing = Tailing(file: Option<string>, tail: Tail, batches: seq<seq<string>>)

  function Happens(s: Tailing, day: int, ev: Event): Tailing {
    match ev
    case Append(text) => s.(file := Some(s.file.GetOr("") + text))
    case Poll => Tailing(s.file, Polled(s.tail, day, s.file), s.batches + [HandedOn(s.tail, day, s.file)])
  }

  function TailRun(day: int, file: Option<string>, events: seq<Event>): Tailing {
    if events == [] then Tailing(file, Started(day, file), [])
    else Happens(TailRun(day, file, events[..|events| - 1]), day, events[|events| - 1])
  }

  function Flat<T>(batches: seq<seq<T>>): seq<T> {
    if batches == [] then [] else Flat(batches[..|batches| - 1]) + batches[|batches| - 1]
  }

  /** What was appended since the tailer started. */
  function Since(s: Tailing, start: nat): string
    requires start <= |s.file.GetOr("")|
  {
    s.file.GetOr("")[start..]
  }

  /** The tailer has read some of the day's file, and handed on exactly what it read. */
  ghost predicate UpTo(s: Tailing, day: int, start: nat) {
    var text := s.file.GetOr("");
    && start <= s.tail.pos <= |text|
    && (s.tail.day != Some(day) ==> s.tail.pos == 0 && s.tail.carry == "")
    && Flat(s.batches) + [s.tail.carry] == Split(text[start..s.tail.pos])
  }

  /** A poll of the day goes on where the tailer stands and reads all the rest. */
  lemma PollReadsOn(s: Tailing, day: int, start: nat)
    requires UpTo(s, day, start)
    ensures var p := Prepared(s.tail, day, s.file);
      p == Tail(Some(day), s.tail.pos, s.tail.carry) && NewText(p, s.file) == s.file.GetOr("")[s.tail.pos..]
  {
  }

  lemma PollCatchesUp(s: Tailing, day: int, start: nat)
    requires UpTo(s, day, start)
    ensures UpTo(Happens(s, day, Poll), day, start)
    ensures Happens(s, day, Poll).tail.pos == |s.file.GetOr("")|
  {
    var text, added := s.file.GetOr(""), s.file.GetOr("")[s.tail.pos..];
    PollReadsOn(s, day, start);
    CarryOver(Flat(s.batches), s.tail.carry, text[start..s.tail.pos], added);
    assert text[start..s.tail.pos] + added == text[start..|text|];
    FlatSnoc(s.batches, HandedOn(s.tail, day, s.file));
    if added == "" {
      assert Flat(s.batches) + [] == Flat(s.batches);
    }
  }

  lemma FlatSnoc<T>(batches: seq<seq<T>>, b: seq<T>)
    ensures Flat(batches + [b]) == Flat(batches) + b
  {
    assert (batches + [b])[..|batches|] == batches;
  }

  lemma AppendKeepsUpTo(s: Tailing, day: int, start: nat, text: string)
    requires UpTo(s, day, start)
    ensures UpTo(Happens(s, day, Append(text)), day, start)
  {
    var before, after := s.file.GetOr(""), Happens(s, day, Append(text)).file.GetOr("");
    assert after[start..s.tail.pos] == before[start..s.tail.pos];
  }

  lemma {:induction false} TailRunUpTo(day: int, file: Option<string>, events: seq<Event>)
    ensures UpTo(TailRun(day, file, events), day, |file.GetOr("")|)
    ensures events != [] && events[|events| - 1].Poll? ==>
      (var s := TailRun(day, file, events); s.tail.pos == |s.file.GetOr("")|)
  {
    var start := |file.GetOr("")|;
    if events == [] {
      assert file.GetOr("")[start..start] == "";
    } else {
      var s, ev := TailRun(day, file, events[..|events| - 1]), events[|events| - 1];
      TailRunUpTo(day, file, events[..|events| - 1]);
      match ev {
        case Append(text) => AppendKeepsUpTo(s, day, start, text);
        case Poll => PollCatchesUp(s, day, start);
      }
    }
  }

  /** Tailing in chunks is reading once: after a poll the lines handed on, in order, and the
      carried-over piece are the split of everything appended since the start. */
  lemma TailingReadsOnce(day: int, file: Option<string>, events: seq<Event>)
    requires events != [] && events[|events| - 1].Poll?
    ensures var s := TailRun(day, file, events);
      |file.GetOr("")| <= |s.file.GetOr("")|
      && Flat(s.batches) + [s.tail.carry] == Split(Since(s, |file.GetOr("")|))
  {
    TailRunUpTo(day, file, events);
    var s := TailRun(day, file, events);
    assert Since(s, |file.GetOr("")|) == s.file.GetOr("")[|file.GetOr("")|..s.tail.pos];
  }

  lemma {:induction false} OneLineIff(text: string)
    ensures |Split(text)| == 1 <==> '\n' !in text
  {
    if text != "" {
      OneLineIff(text[1..]);
      assert text == [text[0]] + text[1..];
    }
  }

  /** At midnight the tailer turns to the new file for good: the old day's lines were all handed on
      exactly when no line end was written after the last poll. */
  lemma LinesMissedAtMidnightIff(s: Tailing, day: int, start: nat)
    requires UpTo(s, day, start)
    ensures Flat(s.batches) == Complete(Split(Since(s, start))) <==> '\n' !in s.file.GetOr("")[s.tail.pos..]
    ensures forall later, file :: later != day && s.tail.day == Some(day) ==>
      HandedOn(s.tail, later, file) == HandedOn(Tail(None, 0, ""), later, file)
  {
    var text := s.file.GetOr("");
    var done, rest := Flat(s.batches), text[s.tail.pos..];
    CarryOver(done, s.tail.carry, text[start..s.tail.pos], rest);
    assert text[start..s.tail.pos] + rest == text[start..];
    var more := Split(s.tail.carry + rest);
    assert Complete(Split(text[start..])) == done + Complete(more);
    SplitJoins(text[start..s.tail.pos]);
    var lines := Split(text[start..s.tail.pos]);
    assert lines[|lines| - 1] == s.tail.carry;
    OneLineIff(s.tail.carry + rest);
    assert '\n' in s.tail.carry + rest <==> '\n' in rest;
  }

  /** It happens: a line appended between the last poll and midnight is not handed on. */
  lemma MissedAtMidnight(day: int)
    ensures var s := TailRun(day, None, [Poll, Append("\n")]);
      UpTo(s, day, 0) && Flat(s.batches) == [] && Complete(Split(Since(s, 0))) == [""]
  {
    var events := [Poll, Append("\n")];
    TailRunUpTo(day, None, events);
    assert events[..1] == [Poll] && [Poll][..0] == [];
    assert TailRun(day, None, []) == Tailing(None, Tail(None, 0, ""), []);
    var polled := TailRun(day, None, [Poll]);
    assert polled == Happens(Tailing(None, Tail(None, 0, ""), []), day, Poll);
    assert polled == Tailing(None, Tail(Some(day), 0, ""), [[]]);
    var s := TailRun(day, None, events);
    assert s == Tailing(Some("" + "\n"), polled.tail, [[]]);
    FlatSnoc<string>([], []);
    assert [] + [[]] == s.batches;
    assert Since(s, 0) == "\n" && "\n"[1..] == "";
    assert Split("\n") == ["", ""];
  }

  // ------------------------------------------------------------------ entries

  function ParseEach(batches: seq<seq<string>>, header: Header): seq<seq<Entry>> {
    seq(|batches|, i requires 0 <= i < |batches| => Parse(batches[i], header))
  }

  function Pushed(batches: seq<seq<string>>, header: Header): seq<Entry> { Flat(ParseEach(batches, header)) }

  lemma PushedSnoc(batches: seq<seq<string>>, header: Header)
    requires batches != []
    ensures Pushed(batches, header) ==
      Pushed(batches[..|batches| - 1], header) + Parse(batches[|batches| - 1], header)
  {
    var each := ParseEach(batches, header);
    assert each[..|each| - 1] == ParseEach(batches[..|batches| - 1], header);
  }

  lemma CutShortJoins(a: seq<Entry>, b: seq<Entry>, c: seq<Entry>, d: seq<Entry>)
    requires CutShort(a, b) && CutShort(b, c)
    ensures CutShort(a + d, c + d)
  {
  }

  /** However the polls cut the file, the pushed entries are the one-shot entries, each with its
      header, a prefix of its message, and therefore the same deduplication key. */
  lemma {:induction false} BatchesCutMessagesOnly(batches: seq<seq<string>>, header: Header)
    ensures CutShort(Pushed(batches, header), Parse(Flat(batches), header))
    ensures Keys(Pushed(batches, header)) == Keys(Parse(Flat(batches), header))
  {
    if batches != [] {
      var init, b := batches[..|batches| - 1], batches[|batches| - 1];
      var a := Flat(init);
      BatchesCutMessagesOnly(init, header);
      PushedSnoc(batches, header);
      ParseInTwo(a, b, header);
      var attached := AttachAll(Parse(a, header), b[..Leading(b, header)]);
      AttachAllExtends(Parse(a, header), b[..Leading(b, header)]);
      AttachAllKeepsKeys(Parse(a, header), b[..Leading(b, header)]);
      CutShortJoins(Pushed(init, header), Parse(a, header), attached, Parse(b, header));
      KeysJoin(Pushed(init, header), Parse(b, header));
      KeysJoin(attached, Parse(b, header));
    }
  }

  /** So, after any appends and polls of a day, the pushed entries are those of one reading. */
  lemma TailedEntriesAreOneShot(day: int, file: Option<string>, events: seq<Event>, header: Header)
    requires events != [] && events[|events| - 1].Poll?
    ensures var s := TailRun(day, file, events);
      |file.GetOr("")| <= |s.file.GetOr("")|
      && var whole := Parse(Complete(Split(Since(s, |file.GetOr("")|))), header);
      CutShort(Pushed(s.batches, header), whole) && Keys(Pushed(s.batches, header)) == Keys(whole)
  {
    TailingReadsOnce(day, file, events);
    var s := TailRun(day, file, events);
    assert Flat(s.batches) == Complete(Flat(s.batches) + [s.tail.carry]);
    BatchesCutMessagesOnly(s.batches, header);
  }

  lemma KeysJoin(a: seq<Entry>, b: seq<Entry>)
    ensures Keys(a + b) == Keys(a) + Keys(b)
  {
  }

  lemma {:induction false} AttachAllKeepsKeys(entries: seq<Entry>, lines: seq<string>)
    ensures Keys(AttachAll(entries, lines)) == Keys(entries)
  {
    if lines != [] {
      AttachAllKeepsKeys(entries, lines[..|lines| - 1]);
      var before := AttachAll(entries, lines[..|lines| - 1]);
      if before != [] {
        FirstLineStops(before[|before| - 1].message, lines[|lines| - 1]);
      }
    }
  }

  /** Batch `k` loses no continuation: it is empty, starts with a header, or nothing came before it. */
  predicate CleanCut(batches: seq<seq<string>>, k: nat, header: Header)
    requires k < |batches|
  {
    batches[k] == [] || header(batches[k][0]).Some? || Parse(Flat(batches[..k]), header) == []
  }

  /** The pushed entries are the one-shot entries, messages included, exactly when every cut is clean. */
  lemma {:induction false} ExactIffCleanCuts(batches: seq<seq<string>>, header: Header)
    ensures Pushed(batches, header) == Parse(Flat(batches), header) <==> AllClean(batches, header)
  {
    if batches != [] {
      var n := |batches| - 1;
      var init, b := batches[..n], batches[n];
      ExactIffCleanCuts(init, header);
      assert init + [b] == batches;
      AllCleanSnoc(init, b, header);
      BatchesCutMessagesOnly(init, header);
      PushedSnoc(batches, header);
      ParseInTwo(Flat(init), b, header);
      LastCut(Pushed(init, header), Parse(Flat(init), header), b, header);
    }
  }

  ghost predicate AllClean(batches: seq<seq<string>>, header: Header) {
    forall k :: 0 <= k < |batches| ==> CleanCut(batches, k, header)
  }

  lemma AllCleanSnoc(init: seq<seq<string>>, b: seq<string>, header: Header)
    ensures AllClean(init + [b], header) <==> AllClean(init, header) && CleanCut(init + [b], |init|, header)
  {
    var batches := init + [b];
    forall k | 0 <= k < |init| ensures CleanCut(init, k, header) == CleanCut(batches, k, header) {
      assert init[..k] == batches[..k];
    }
    if AllClean(batches, header) {
      forall k | 0 <= k < |init| ensures CleanCut(init, k, header) {
        assert CleanCut(batches, k, header);
      }
    }
  }

  lemma LastCut(pushed: seq<Entry>, parsed: seq<Entry>, b: seq<string>, header: Header)
    requires CutShort(pushed, parsed)
    ensures pushed + Parse(b, header) == AttachAll(parsed, b[..Leading(b, header)]) + Parse(b, header) <==>
      pushed == parsed && (b == [] || header(b[0]).Some? || parsed == [])
  {
    var attached := AttachAll(parsed, b[..Leading(b, header)]);
    AttachAllExtends(parsed, b[..Leading(b, header)]);
    SameTail(pushed, attached, Parse(b, header));
    if b != [] && header(b[0]).None? && parsed != [] {
      assert pushed[|parsed| - 1].message <= parsed[|parsed| - 1].message;
      assert pushed[|parsed| - 1] != attached[|parsed| - 1];
    }
  }

  lemma SameTail(a: seq<Entry>, b: seq<Entry>, tail: seq<Entry>)
    requires |a| == |b|
    ensures a + tail == b + tail <==> a == b
  {
    if a + tail == b + tail {
      assert a == (a + tail)[..|a|] && b == (b + tail)[..|b|];
    }
  }
}
