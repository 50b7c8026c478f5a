/** `RingBufferHandler`: a bounded ring of log entries fed by this process (`emit`), by the tailed
    file (`push_parsed_entry`) and once from disk (`bootstrap_from_file`), with approximate
    deduplication over the last recorded keys. */
module LogRing {
  import opened Wrappers

  const DEDUP_MAXLEN: nat := 500

  const WS_NOISE_LOGGERS: seq<string> := ["uvicorn.error", "uvicorn.protocols.websockets", "asyncio"]

  const WS_NOISE_SIGS: seq<string> := [
    "keepalive ping timeout", "no close frame received", "sent 1011", "sent 1006",
    "ConnectionClosedError", "ConnectionClosedOK", "WebSocket is closed", "exception in shielded future"]

  const WARN_PLUS: seq<string> := ["WARNING", "ERROR", "CRITICAL", "SUCCESS"]

  datatype Entry = Entry(timestamp: string, level: string, name: string, message: string, sn: Option<int>)

  /** The deduplication key: second, logger and first message line. */
  datatype Key = Key(second: string, name: string, firstLine: string)

  function FirstLine(message: string): string {
    if message == "" || message[0] == '\n' then "" else [message[0]] + FirstLine(message[1..])
  }

  function KeyOf(e: Entry): Key {
    Key(if |e.timestamp| <= 19 then e.timestamp else e.timestamp[..19], e.name, FirstLine(e.message))
  }

  predicate Contains(text: string, part: string) {
    part <= text || (text != "" && Contains(text[1..], part))
  }

  function Upper(text: string): string {
    seq(|text|, i requires 0 <= i < |text| => if 'a' <= text[i] <= 'z' then text[i] - 'a' + 'A' else text[i])
  }

  predicate WsNoise(e: Entry) {
    e.name in WS_NOISE_LOGGERS && exists sig :: sig in WS_NOISE_SIGS && Contains(e.message, sig)
  }

  /** The panel allowlist and the websocket noise filter, as applied to tailed entries. */
  predicate Passes(e: Entry) {
    !WsNoise(e) && (e.name == "app" || "app." <= e.name || Upper(e.level) in WARN_PLUS)
  }

  predicate OccursAt(text: string, part: string, i: nat) { i + |part| <= |text| && text[i..i + |part|] == part }

  ghost predicate Says(text: string, phrase: string) { exists i: nat :: OccursAt(text, phrase, i) }

  lemma OccursLater(text: string, part: string, i: nat)
    requires text != "" && 0 < i
    ensures OccursAt(text, part, i) <==> OccursAt(text[1..], part, i - 1)
  {
    if i + |part| <= |text| {
      assert text[1..][i - 1..i - 1 + |part|] == text[i..i + |part|];
    }
  }

  lemma {:induction false} ContainsIff(text: string, part: string)
    ensures Contains(text, part) <==> Says(text, part)
  {
    if part <= text {
      assert OccursAt(text, part, 0);
    } else if text != "" {
      ContainsIff(text[1..], part);
      if i: nat :| OccursAt(text[1..], part, i) {
        OccursLater(text, part, i + 1);
      }
      if i: nat :| 0 < i && OccursAt(text, part, i) {
        OccursLater(text, part, i);
      }
    }
  }

  /** The same word up to the case of its ASCII letters; `word` is in capitals. */
  predicate SpellsOut(text: string, word: string) {
    && |text| == |word|
    && forall i :: 0 <= i < |text| ==> text[i] == word[i] || ('A' <= word[i] <= 'Z' && text[i] == word[i] + ' ')
  }

  lemma UpperIs(text: string, word: string)
    requires forall i :: 0 <= i < |word| ==> 'A' <= word[i] <= 'Z'
    ensures Upper(text) == word <==> SpellsOut(text, word)
  {
    assert |Upper(text)| == |text|;
    if SpellsOut(text, word) {
      assert forall i :: 0 <= i < |text| ==> Upper(text)[i] == word[i];
    }
  }

  /** A message of a client that went away. */
  ghost predicate SaysGone(message: string) {
    || Says(message, "keepalive ping timeout") || Says(message, "no close frame received")
    || Says(message, "sent 1011") || Says(message, "sent 1006")
    || Says(message, "ConnectionClosedError") || Says(message, "ConnectionClosedOK")
    || Says(message, "WebSocket is closed") || Says(message, "exception in shielded future")
  }

  lemma NoiseIff(e: Entry)
    ensures WsNoise(e) <==>
      && (e.name == "uvicorn.error" || e.name == "uvicorn.protocols.websockets" || e.name == "asyncio")
      && SaysGone(e.message)
  {
    forall k | 0 <= k < |WS_NOISE_SIGS|
      ensures Contains(e.message, WS_NOISE_SIGS[k]) <==> Says(e.message, WS_NOISE_SIGS[k])
    {
      ContainsIff(e.message, WS_NOISE_SIGS[k]);
    }
    assert WS_NOISE_LOGGERS[0] == "uvicorn.error";
    assert WS_NOISE_LOGGERS[1] == "uvicorn.protocols.websockets";
    assert WS_NOISE_LOGGERS[2] == "asyncio";
    assert SaysGone(e.message) <==> exists k :: 0 <= k < |WS_NOISE_SIGS| && Says(e.message, WS_NOISE_SIGS[k]) by {
      assert WS_NOISE_SIGS[0] == "keepalive ping timeout" && WS_NOISE_SIGS[1] == "no close frame received";
      assert WS_NOISE_SIGS[2] == "sent 1011" && WS_NOISE_SIGS[3] == "sent 1006";
      assert WS_NOISE_SIGS[4] == "ConnectionClosedError" && WS_NOISE_SIGS[5] == "ConnectionClosedOK";
      assert WS_NOISE_SIGS[6] == "WebSocket is closed" && WS_NOISE_SIGS[7] == "exception in shielded future";
    }
  }

  /** Which tailed entries get through: those of the app and of the four upper levels, whatever the
      case they are written in, unless a websocket logger tells of a client that went away. */
  lemma PassesIff(e: Entry)
    ensures Passes(e) <==>
      && !((e.name == "uvicorn.error" || e.name == "uvicorn.protocols.websockets" || e.name == "asyncio")
           && SaysGone(e.message))
      && (|| e.name == "app" || (|e.name| >= 4 && e.name[..4] == "app.")
          || SpellsOut(e.level, "WARNING") || SpellsOut(e.level, "ERROR")
          || SpellsOut(e.level, "CRITICAL") || SpellsOut(e.level, "SUCCESS"))
  {
    NoiseIff(e);
    UpperIs(e.level, "WARNING");
    UpperIs(e.level, "ERROR");
    UpperIs(e.level, "CRITICAL");
    UpperIs(e.level, "SUCCESS");
    assert WARN_PLUS[0] == "WARNING" && WARN_PLUS[1] == "ERROR";
    assert WARN_PLUS[2] == "CRITICAL" && WARN_PLUS[3] == "SUCCESS";
  }

  lemma {:induction false} FirstLineIs(message: string)
    ensures FirstLine(message) <= message && '\n' !in FirstLine(message)
    ensures |FirstLine(message)| < |message| ==> message[|FirstLine(message)|] == '\n'
  {
    if message != "" && message[0] != '\n' {
      FirstLineIs(message[1..]);
    }
  }

  /** Two messages open with the same line, up to a line end or the end of the message. */
  ghost predicate SameOpening(a: string, b: string) {
    exists n: nat :: OpeningLine(a, n) && OpeningLine(b, n) && a[..n] == b[..n]
  }

  predicate OpeningLine(a: string, n: nat) {
    n <= |a| && '\n' !in a[..n] && (n == |a| || a[n] == '\n')
  }

  lemma OpeningIsFirstLine(a: string, n: nat)
    requires OpeningLine(a, n)
    ensures FirstLine(a) == a[..n]
  {
    FirstLineIs(a);
    var m := |FirstLine(a)|;
    assert FirstLine(a) == a[..m];
    InFront(a, m, n);
    InFront(a, n, m);
  }

  lemma InFront(a: string, i: nat, n: nat)
    requires n <= |a|
    ensures i < n ==> a[i] in a[..n]
  {
    if i < n {
      assert a[..n][i] == a[i];
    }
  }

  /** Two entries have one key just when second, logger and first line agree. */
  lemma SameKeyIff(a: Entry, b: Entry)
    ensures KeyOf(a) == KeyOf(b) <==>
      && (|| a.timestamp == b.timestamp
          || (|a.timestamp| >= 19 && |b.timestamp| >= 19 && a.timestamp[..19] == b.timestamp[..19]))
      && a.name == b.name && SameOpening(a.message, b.message)
  {
    FirstLineIs(a.message);
    FirstLineIs(b.message);
    var n, m := |FirstLine(a.message)|, |FirstLine(b.message)|;
    assert OpeningLine(a.message, n) && a.message[..n] == FirstLine(a.message);
    assert OpeningLine(b.message, m) && b.message[..m] == FirstLine(b.message);
    if k: nat :| OpeningLine(a.message, k) && OpeningLine(b.message, k) && a.message[..k] == b.message[..k] {
      OpeningIsFirstLine(a.message, k);
      OpeningIsFirstLine(b.message, k);
    }
    SecondsIff(a.timestamp, b.timestamp);
  }

  lemma SecondsIff(a: string, b: string)
    ensures (if |a| <= 19 then a else a[..19]) == (if |b| <= 19 then b else b[..19]) <==>
      a == b || (|a| >= 19 && |b| >= 19 && a[..19] == b[..19])
  {
    assert |a| == 19 ==> a[..19] == a;
    assert |b| == 19 ==> b[..19] == b;
  }

  // ------------------------------------------------------------------ parsing

  /** A parser of one header line; continuation lines have no header. */
  type Header = string -> Option<Entry>

  function Extended(e: Entry, line: string): Entry { e.(message := e.message + "\n" + line) }

  /** A continuation line goes to the newest entry, or nowhere when there is none. */
  function Attach(entries: seq<Entry>, line: string): seq<Entry> {
    if entries == [] then [] else entries[|entries| - 1 := Extended(entries[|entries| - 1], line)]
  }

  function Parse(lines: seq<string>, header: Header): seq<Entry> {
    if lines == [] then []
    else
      var before, line := Parse(lines[..|lines| - 1], header), lines[|lines| - 1];
      match header(line)
      case Some(e) => before + [e]
      case None => Attach(before, line)
  }

  method ParseLines(lines: seq<string>, header: Header) returns (entries: seq<Entry>)
    ensures entries == Parse(lines, header)
  {
    entries := [];
    for i := 0 to |lines|
      invariant entries == Parse(lines[..i], header)
    {
      assert lines[..i + 1][..i] == lines[..i];
      match header(lines[i]) {
        case Some(e) => entries := entries + [e];
        case None =>
          if entries != [] {
            var last := entries[|entries| - 1];
            entries := entries[|entries| - 1 := last.(message := last.message + "\n" + lines[i])];
          }
      }
    }
    assert lines[..|lines|] == lines;
  }

  /** The header lines of a text, each as an entry of its own. */
  function Headers(lines: seq<string>, header: Header): seq<Entry> {
    if lines == [] then []
    else Headers(lines[..|lines| - 1], header) + OneHeader(lines[|lines| - 1], header)
  }

  function OneHeader(line: string, header: Header): seq<Entry> {
    match header(line)
    case Some(e) => [e]
    case None => []
  }

  /** Same entries in the same order, each message of `cut` a prefix of its counterpart. */
  ghost predicate CutShort(cut: seq<Entry>, whole: seq<Entry>) {
    && |cut| == |whole|
    && forall i :: 0 <= i < |cut| ==>
         cut[i] == whole[i].(message := cut[i].message) && cut[i].message <= whole[i].message
  }

  /** One entry a header line, in order, each message its header's message plus what follows. */
  lemma {:induction false} ParseKeepsHeaders(lines: seq<string>, header: Header)
    ensures CutShort(Headers(lines, header), Parse(lines, header))
  {
    if lines != [] {
      ParseKeepsHeaders(lines[..|lines| - 1], header);
    }
  }

  /** The continuation lines before the first header. */
  function Leading(lines: seq<string>, header: Header): (n: nat)
    ensures n <= |lines|
  {
    if lines == [] || header(lines[0]).Some? then 0 else 1 + Leading(lines[1..], header)
  }

  function AttachAll(entries: seq<Entry>, lines: seq<string>): seq<Entry> {
    if lines == [] then entries else Attach(AttachAll(entries, lines[..|lines| - 1]), lines[|lines| - 1])
  }

  lemma {:induction false} LeadingOfMore(lines: seq<string>, line: string, header: Header)
    ensures Leading(lines + [line], header) ==
      if Leading(lines, header) < |lines| || header(line).Some? then Leading(lines, header) else |lines| + 1
  {
    if lines != [] {
      assert (lines + [line])[1..] == lines[1..] + [line];
      LeadingOfMore(lines[1..], line, header);
    }
  }

  lemma {:induction false} NoEntryUnlessHeader(lines: seq<string>, header: Header)
    ensures Parse(lines, header) == [] <==> Leading(lines, header) == |lines|
  {
    if lines != [] {
      var init, line := lines[..|lines| - 1], lines[|lines| - 1];
      NoEntryUnlessHeader(init, header);
      LeadingOfMore(init, line, header);
      assert init + [line] == lines;
    }
  }

  lemma AttachRight(a: seq<Entry>, b: seq<Entry>, line: string)
    ensures b != [] ==> Attach(a + b, line) == a + Attach(b, line)
  {
  }

  lemma ParseSnoc(lines: seq<string>, line: string, header: Header)
    ensures Parse(lines + [line], header) ==
      if header(line).Some? then Parse(lines, header) + [header(line).value] else Attach(Parse(lines, header), line)
  {
    assert (lines + [line])[..|lines|] == lines;
  }

  lemma AttachAllSnoc(entries: seq<Entry>, lines: seq<string>, line: string)
    ensures AttachAll(entries, lines + [line]) == Attach(AttachAll(entries, lines), line)
  {
    assert (lines + [line])[..|lines|] == lines;
  }

  /** Parsing in two pieces: only the second piece's leading continuation lines differ. */
  lemma {:induction false} ParseInTwo(a: seq<string>, b: seq<string>, header: Header)
    ensures Parse(a + b, header) == AttachAll(Parse(a, header), b[..Leading(b, header)]) + Parse(b, header)
  {
    if b == [] {
      assert a + b == a;
    } else {
      var init, line := b[..|b| - 1], b[|b| - 1];
      ParseInTwo(a, init, header);
      ParseInTwoStep(a, init, line, header);
      assert init + [line] == b && a + init + [line] == a + b;
    }
  }

  lemma ParseInTwoStep(a: seq<string>, init: seq<string>, line: string, header: Header)
    requires Parse(a + init, header) == AttachAll(Parse(a, header), init[..Leading(init, header)]) + Parse(init, header)
    ensures var b := init + [line];
      Parse(a + init + [line], header) == AttachAll(Parse(a, header), b[..Leading(b, header)]) + Parse(b, header)
  {
    var b := init + [line];
    var attached := AttachAll(Parse(a, header), init[..Leading(init, header)]);
    LeadingOfMore(init, line, header);
    NoEntryUnlessHeader(init, header);
    ParseSnoc(init, line, header);
    ParseSnoc(a + init, line, header);
    if Leading(b, header) == |b| {
      assert b[..|b|] == init[..|init|] + [line];
      AttachAllSnoc(Parse(a, header), init[..|init|], line);
    } else {
      assert b[..Leading(b, header)] == init[..Leading(init, header)];
      AttachRight(attached, Parse(init, header), line);
    }
  }

  lemma {:induction false} AttachAllExtends(entries: seq<Entry>, lines: seq<string>)
    ensures CutShort(entries, AttachAll(entries, lines))
    ensures entries != [] && lines != [] ==>
      |entries[|entries| - 1].message| < |AttachAll(entries, lines)[|entries| - 1].message|
    ensures entries == [] ==> AttachAll(entries, lines) == []
  {
    if lines != [] {
      AttachAllExtends(entries, lines[..|lines| - 1]);
    }
  }

  /** Reading in two batches gives the one-shot entries just when the second starts with a header
      (or is empty) or there is nothing for its leading lines to continue. */
  lemma TwoBatchesIff(a: seq<string>, b: seq<string>, header: Header)
    ensures Parse(a, header) + Parse(b, header) == Parse(a + b, header) <==>
      b == [] || header(b[0]).Some? || Parse(a, header) == []
  {
    ParseInTwo(a, b, header);
    var whole := AttachAll(Parse(a, header), b[..Leading(b, header)]);
    AttachAllExtends(Parse(a, header), b[..Leading(b, header)]);
    if b != [] && header(b[0]).None? && Parse(a, header) != [] {
      var k := |Parse(a, header)| - 1;
      assert (Parse(a, header) + Parse(b, header))[k] != (whole + Parse(b, header))[k];
    }
  }

  /** A message and the lines that continue it. */
  function Continued(message: string, lines: seq<string>): string
    decreases |lines|
  {
    if lines == [] then message else message + "\n" + Continued(lines[0], lines[1..])
  }

  lemma {:induction false} ContinuedSnoc(message: string, lines: seq<string>, line: string)
    ensures Continued(message, lines + [line]) == Continued(message, lines) + "\n" + line
    decreases |lines|
  {
    if lines == [] {
      assert (lines + [line])[1..] == [];
    } else {
      ContinuedSnoc(lines[0], lines[1..], line);
      assert (lines + [line])[1..] == lines[1..] + [line];
      assert Continued(message, lines + [line]) == message + "\n" + Continued(lines[0], lines[1..] + [line]);
    }
  }

  /** A header and the lines after it, up to the next header, are one entry that has all of their text. */
  lemma {:induction false} OneEntryHasItsLines(line: string, lines: seq<string>, header: Header)
    requires header(line).Some? && forall i :: 0 <= i < |lines| ==> header(lines[i]).None?
    ensures var e := header(line).value;
      Parse([line] + lines, header) == [e.(message := Continued(e.message, lines))]
  {
    var e := header(line).value;
    if lines == [] {
      assert [line] + lines == [] + [line];
      ParseSnoc([], line, header);
    } else {
      var init, last := lines[..|lines| - 1], lines[|lines| - 1];
      OneEntryHasItsLines(line, init, header);
      ParseSnoc([line] + init, last, header);
      ContinuedSnoc(e.message, init, last);
      assert [line] + init + [last] == [line] + lines && init + [last] == lines;
    }
  }

  lemma {:induction false} FirstLineStops(message: string, more: string)
    ensures FirstLine(message + "\n" + more) == FirstLine(message)
  {
    if message != "" && message[0] != '\n' {
      FirstLineStops(message[1..], more);
      assert (message + "\n" + more)[1..] == message[1..] + "\n" + more;
    }
  }

  function Keys(entries: seq<Entry>): seq<Key> {
    seq(|entries|, i requires 0 <= i < |entries| => KeyOf(entries[i]))
  }

  /** Continuation lines do not change a key, so neither does where a batch was cut. */
  lemma {:induction false} ParsedKeysAreHeaderKeys(lines: seq<string>, header: Header)
    ensures Keys(Parse(lines, header)) == Keys(Headers(lines, header))
  {
    if lines != [] {
      ParsedKeysAreHeaderKeys(lines[..|lines| - 1], header);
      var before, hs := Parse(lines[..|lines| - 1], header), Headers(lines[..|lines| - 1], header);
      KeysApply(before);
      KeysApply(hs);
      if before != [] {
        FirstLineStops(before[|before| - 1].message, lines[|lines| - 1]);
      }
    }
  }

  lemma KeysApply(entries: seq<Entry>)
    ensures |Keys(entries)| == |entries| && forall i :: 0 <= i < |entries| ==> Keys(entries)[i] == KeyOf(entries[i])
  {
  }

  // ------------------------------------------------------------------ the ring

  /** What a deque of length at most `n` keeps. */
  function Last<T>(s: seq<T>, n: nat): seq<T> { if |s| <= n then s else s[|s| - n..] }

  /** The newest `n` of them, or all there are. */
  lemma LastIsNewest<T>(s: seq<T>, n: nat)
    ensures |Last(s, n)| == n <= |s| || Last(s, n) == s
    ensures forall i :: |s| - |Last(s, n)| <= i < |s| ==> s[i] == Last(s, n)[i - |s| + |Last(s, n)|]
  {
  }

  datatype Ring = Ring(buffer: seq<Entry>, recentKeys: seq<Key>)

  const EMPTY: Ring := Ring([], [])

  datatype Event = Emitted(entry: Entry) | Tailed(entry: Entry) | Loaded(entries: seq<Entry>)

  function Recorded(r: Ring, capacity: nat, e: Entry): Ring {
    Ring(Last(r.buffer + [e], capacity), Last(r.recentKeys + [KeyOf(e)], DEDUP_MAXLEN))
  }

  function Happened(r: Ring, capacity: nat, ev: Event): Ring {
    match ev
    case Emitted(e) => Recorded(r, capacity, e)
    case Tailed(e) => if Passes(e) && KeyOf(e) !in r.recentKeys then Recorded(r, capacity, e) else r
    case Loaded(es) => r.(buffer := Last(r.buffer + es, capacity))
  }

  function Run(r: Ring, capacity: nat, events: seq<Event>): Ring {
    if events == [] then r
    else Happened(Run(r, capacity, events[..|events| - 1]), capacity, events[|events| - 1])
  }

  function Tails(entries: seq<Entry>): seq<Event> {
    seq(|entries|, i requires 0 <= i < |entries| => Tailed(entries[i]))
  }

  /** The class-level flag of the process: the ring is loaded from disk at most once. */
  class Process {
    var bootstrapped: bool

    constructor ()
      ensures !bootstrapped
    {
      bootstrapped := false;
    }
  }

  class RingBufferHandler {
    const capacity: nat
    var buffer: seq<Entry>
    var recentKeys: seq<Key>

    constructor (capacity: nat)
      ensures this.capacity == capacity && State() == EMPTY && Valid()
    {
      this.capacity, buffer, recentKeys := capacity, [], [];
    }

    ghost function State(): Ring
      reads this
    {
      Ring(buffer, recentKeys)
    }

    ghost predicate Valid()
      reads this
    {
      |buffer| <= capacity && |recentKeys| <= DEDUP_MAXLEN
    }

    method Append(e: Entry)
      modifies this`buffer
      ensures buffer == Last(old(buffer) + [e], capacity)
    {
      buffer := buffer + [e];
      if |buffer| > capacity {
        buffer := buffer[|buffer| - capacity..];
      }
    }

    method Record(e: Entry)
      requires Valid()
      modifies this
      ensures Valid() && State() == Recorded(old(State()), capacity, e)
    {
      Append(e);
      recentKeys := recentKeys + [KeyOf(e)];
      if |recentKeys| > DEDUP_MAXLEN {
        recentKeys := recentKeys[|recentKeys| - DEDUP_MAXLEN..];
      }
    }

    method Emit(e: Entry)
      requires Valid()
      modifies this
      ensures Valid() && State() == Happened(old(State()), capacity, Emitted(e))
    {
      Record(e);
    }

    method PushParsedEntry(e: Entry)
      requires Valid()
      modifies this
      ensures Valid() && State() == Happened(old(State()), capacity, Tailed(e))
    {
      if e.name in WS_NOISE_LOGGERS {
        if exists sig :: sig in WS_NOISE_SIGS && Contains(e.message, sig) {
          return;
        }
      }
      var isApp := e.name == "app" || "app." <= e.name;
      if !isApp {
        if Upper(e.level) !in WARN_PLUS {
          return;
        }
      }
      if KeyOf(e) in recentKeys {
        return;
      }
      Record(e);
    }

    /** `lines` are those of the file found, today's or yesterday's. Python's `lines[-n:]` with n = 0 is all of them. */
    method BootstrapFromFile(process: Process, lines: Option<seq<string>>, header: Header) returns (count: nat)
      requires Valid()
      modifies this, process
      ensures Valid() && process.bootstrapped && recentKeys == old(recentKeys)
      ensures old(process.bootstrapped) || lines.None? ==> count == 0 && buffer == old(buffer)
      ensures !old(process.bootstrapped) && lines.Some? ==>
        (var entries := Parse(if capacity == 0 then lines.value else Last(lines.value, capacity), header);
         count == |entries| && State() == Happened(old(State()), capacity, Loaded(entries)))
    {
      if process.bootstrapped {
        return 0;
      }
      process.bootstrapped := true;
      if lines.None? {
        return 0;
      }
      var raw := lines.value;
      if 0 < capacity < |raw| {
        raw := raw[|raw| - capacity..];
      }
      var entries := ParseLines(raw, header);
      if entries == [] {
        assert Last(buffer + [], capacity) == buffer;
        return 0;
      }
      AppendAll(entries);
      count := |entries|;
    }

    method AppendAll(entries: seq<Entry>)
      requires Valid()
      modifies this`buffer
      ensures buffer == Last(old(buffer) + entries, capacity)
    {
      ghost var before := buffer;
      assert before + entries[..0] == before;
      for i := 0 to |entries|
        invariant buffer == Last(before + entries[..i], capacity)
      {
        LastAppend(before + entries[..i], [entries[i]], capacity);
        assert before + entries[..i] + [entries[i]] == before + entries[..i + 1];
        Append(entries[i]);
      }
      assert entries[..|entries|] == entries;
    }
  }

  // ------------------------------------------------------------------ against an unbounded log

  lemma LastAppend<T>(s: seq<T>, t: seq<T>, n: nat)
    ensures Last(Last(s, n) + t, n) == Last(s + t, n)
  {
    var a, b := Last(Last(s, n) + t, n), Last(s + t, n);
    assert |a| == |b|;
    assert forall i :: 0 <= i < |a| ==> a[i] == b[i];
  }

  /** Everything ever accepted, and every key ever recorded with where it came from. */
  datatype History = History(accepted: seq<Entry>, recorded: seq<(Key, bool)>)

  function KeysOf(recorded: seq<(Key, bool)>): seq<Key> {
    seq(|recorded|, i requires 0 <= i < |recorded| => recorded[i].0)
  }

  function Record1(h: History, e: Entry, tailed: bool): History {
    History(h.accepted + [e], h.recorded + [(KeyOf(e), tailed)])
  }

  function Logged(h: History, ev: Event): History {
    match ev
    case Emitted(e) => Record1(h, e, false)
    case Tailed(e) =>
      if Passes(e) && KeyOf(e) !in Last(KeysOf(h.recorded), DEDUP_MAXLEN) then Record1(h, e, true) else h
    case Loaded(es) => h.(accepted := h.accepted + es)
  }

  function FullLog(events: seq<Event>): History {
    if events == [] then History([], [])
    else Logged(FullLog(events[..|events| - 1]), events[|events| - 1])
  }

  /** The ring is always the last `capacity` accepted entries, bootstrap included. */
  lemma {:induction false} RingIsLastAccepted(events: seq<Event>, capacity: nat)
    ensures Run(EMPTY, capacity, events) ==
      Ring(Last(FullLog(events).accepted, capacity), Last(KeysOf(FullLog(events).recorded), DEDUP_MAXLEN))
  {
    if events != [] {
      var init, ev := events[..|events| - 1], events[|events| - 1];
      RingIsLastAccepted(init, capacity);
      var h, h' := FullLog(init), FullLog(events);
      if ev.Loaded? {
        LastAppend(h.accepted, ev.entries, capacity);
      } else {
        LastAppend(h.accepted, [ev.entry], capacity);
        LastAppend(KeysOf(h.recorded), [KeyOf(ev.entry)], DEDUP_MAXLEN);
        assert h' != h ==> KeysOf(h'.recorded) == KeysOf(h.recorded) + [KeyOf(ev.entry)];
      }
    }
  }

  /** No tailed entry has the key of one of the 500 recorded before it. */
  ghost predicate NoRepeat(recorded: seq<(Key, bool)>) {
    forall p, q :: 0 <= p < q < |recorded| && recorded[q].1 && recorded[p].0 == recorded[q].0 ==> q - p > DEDUP_MAXLEN
  }

  lemma NoRepeatStep(recorded: seq<(Key, bool)>, key: Key, tailed: bool)
    requires NoRepeat(recorded) && (tailed ==> key !in Last(KeysOf(recorded), DEDUP_MAXLEN))
    ensures NoRepeat(recorded + [(key, tailed)])
  {
    var all, keys := recorded + [(key, tailed)], KeysOf(recorded);
    var kept := Last(keys, DEDUP_MAXLEN);
    forall p | |keys| - |kept| <= p < |keys| ensures recorded[p].0 in kept {
      assert kept[p - (|keys| - |kept|)] == keys[p] == recorded[p].0;
    }
    assert forall p :: 0 <= p < |recorded| ==> all[p] == recorded[p];
  }

  /** In every run a tailed entry's key differs from the 500 keys recorded before it. */
  lemma {:induction false} TailedNeverRepeats(events: seq<Event>)
    ensures NoRepeat(FullLog(events).recorded)
  {
    if events != [] {
      var h, ev := FullLog(events[..|events| - 1]), events[|events| - 1];
      TailedNeverRepeats(events[..|events| - 1]);
      if !ev.Loaded? && FullLog(events) != h {
        NoRepeatStep(h.recorded, KeyOf(ev.entry), ev.Tailed?);
      }
    }
  }

  lemma {:induction false} LogGrows(events: seq<Event>, n: nat)
    requires n <= |events|
    ensures FullLog(events[..n]).recorded <= FullLog(events).recorded
  {
    if n == |events| {
      assert events[..n] == events;
    } else {
      LogGrows(events[..|events| - 1], n);
      assert events[..|events| - 1][..n] == events[..n];
    }
  }

  /** An entry of this process that comes back from the file with the same key, with fewer than
      500 keys recorded in between, changes nothing: it appears once. */
  lemma EchoIsDropped(events: seq<Event>, i: nat, e: Entry, echo: Entry, capacity: nat)
    requires i < |events| && events[i] == Emitted(e) && KeyOf(echo) == KeyOf(e)
    requires |FullLog(events).recorded| - |FullLog(events[..i + 1]).recorded| < DEDUP_MAXLEN
    ensures Run(EMPTY, capacity, events + [Tailed(echo)]) == Run(EMPTY, capacity, events)
    ensures FullLog(events + [Tailed(echo)]) == FullLog(events)
  {
    LogGrows(events, i + 1);
    assert events[..i + 1][..i] == events[..i];
    var recorded := FullLog(events).recorded;
    var p := |FullLog(events[..i]).recorded|;
    assert FullLog(events[..i + 1]).recorded[p].0 == KeyOf(e);
    assert recorded[p].0 == KeyOf(e);
    var keys := KeysOf(recorded);
    assert keys[p] == KeyOf(e);
    assert Last(keys, DEDUP_MAXLEN)[p - (|keys| - |Last(keys, DEDUP_MAXLEN)|)] == keys[p];
    assert (events + [Tailed(echo)])[..|events|] == events;
    RingIsLastAccepted(events, capacity);
  }

  // ------------------------------------------------------------------ when does an echo have the same key?

  /** `emit` stamps UTC with microseconds; the file holds local time to the second, read back as UTC. */
  lemma EchoKeyIffUtc(stamp: int -> string, second: int, offset: int, micros: string, e: Entry, echo: Entry)
    requires |stamp(second)| == 19 && |stamp(second + offset)| == 19
    requires stamp(second) == stamp(second + offset) <==> offset == 0
    requires e.timestamp == stamp(second) + micros && echo.timestamp == stamp(second + offset) + "+00:00"
    requires echo.name == e.name && FirstLine(echo.message) == FirstLine(e.message)
    ensures KeyOf(echo) == KeyOf(e) <==> offset == 0
  {
    assert e.timestamp[..19] == stamp(second);
    assert echo.timestamp[..19] == stamp(second + offset);
  }

  /** Lifted to runs: an echo that passes the filters, less than 500 recorded keys after its entry
      and with no other recent entry of its own key, is dropped exactly when the host runs on UTC;
      elsewhere the entry is accepted a second time. */
  lemma EchoTwiceIffNotUtc(events: seq<Event>, i: nat, capacity: nat, stamp: int -> string, second: int, offset: int,
                           micros: string, e: Entry, echo: Entry)
    requires i < |events| && events[i] == Emitted(e) && Passes(echo)
    requires |FullLog(events).recorded| - |FullLog(events[..i + 1]).recorded| < DEDUP_MAXLEN
    requires KeyOf(echo) in Last(KeysOf(FullLog(events).recorded), DEDUP_MAXLEN) ==> KeyOf(echo) == KeyOf(e)
    requires |stamp(second)| == 19 && |stamp(second + offset)| == 19
    requires stamp(second) == stamp(second + offset) <==> offset == 0
    requires e.timestamp == stamp(second) + micros && echo.timestamp == stamp(second + offset) + "+00:00"
    requires echo.name == e.name && FirstLine(echo.message) == FirstLine(e.message)
    ensures e in FullLog(events).accepted
    ensures FullLog(events + [Tailed(echo)]).accepted ==
      FullLog(events).accepted + if offset == 0 then [] else [echo]
    ensures Run(EMPTY, capacity, events + [Tailed(echo)]).buffer ==
      if offset == 0 then Run(EMPTY, capacity, events).buffer
      else Last(Run(EMPTY, capacity, events).buffer + [echo], capacity)
  {
    EchoKeyIffUtc(stamp, second, offset, micros, e, echo);
    AcceptedStays(events, i, e);
    RingIsLastAccepted(events, capacity);
    assert (events + [Tailed(echo)])[..|events|] == events;
    if offset == 0 {
      EchoIsDropped(events, i, e, echo, capacity);
    }
  }

  lemma EchoOfAnotherKey(e: Entry, echo: Entry)
    requires Passes(echo) && KeyOf(echo) != KeyOf(e)
    ensures FullLog([Emitted(e), Tailed(echo)]).accepted == [e, echo]
  {
    assert [Emitted(e), Tailed(echo)][..1] == [Emitted(e)] && [Emitted(e)][..0] == [];
    assert FullLog([]) == History([], []);
    var h := FullLog([Emitted(e)]);
    assert h == Logged(History([], []), Emitted(e));
    assert KeysOf(h.recorded) == [KeyOf(e)];
  }

  /** It happens eight hours east of UTC: the entry and its echo are both in the log. */
  lemma EchoTwiceEastOfUtc(e: Entry, echo: Entry)
    requires e == Entry("2026-04-19T09:04:27.123456+00:00", "INFO", "app", "started", None)
    requires echo == e.(timestamp := "2026-04-19T17:04:27+00:00")
    ensures FullLog([Emitted(e), Tailed(echo)]).accepted == [e, echo]
  {
    SecondsDiffer(e, echo);
    EchoOfAnotherKey(e, echo);
  }

  lemma SecondsDiffer(e: Entry, echo: Entry)
    requires |e.timestamp| > 19 && |echo.timestamp| > 19 && e.timestamp[11] != echo.timestamp[11]
    ensures KeyOf(e) != KeyOf(echo)
  {
    assert KeyOf(e).second[11] == e.timestamp[11] && KeyOf(echo).second[11] == echo.timestamp[11];
  }

  lemma {:induction false} AcceptedStays(events: seq<Event>, i: nat, e: Entry)
    requires i < |events| && events[i] == Emitted(e)
    ensures e in FullLog(events).accepted
  {
    if i < |events| - 1 {
      AcceptedStays(events[..|events| - 1], i, e);
    }
  }
}
