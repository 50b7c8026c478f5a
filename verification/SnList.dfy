/** The `sn_list` text: the exporter prints one line an entry, the repository parses it back. */
module SnList {
  import opened PyText
  import opened Wrappers

  datatype Item = Item(mode: string, tag: string, rename: string)

  const MODES: seq<string> := ["all", "latest", "largest-sn"]

  predicate Digit(c: char) { '0' <= c <= '9' }

  predicate Digits(s: string) { s != "" && forall i :: 0 <= i < |s| ==> Digit(s[i]) }

  function ToInt(s: string): nat
    requires forall i :: 0 <= i < |s| ==> Digit(s[i])
  {
    if s == "" then 0
    else
      assert Digit(s[|s| - 1]);
      10 * ToInt(s[..|s| - 1]) + (s[|s| - 1] - '0') as int
  }

  // ------------------------------------------------------------------ the exporter

  function Line(sn: string, name: string): string { sn + " all <" + name + ">\n" }

  function Printed(entries: seq<(string, string)>): string {
    if entries == [] then ""
    else Printed(entries[..|entries| - 1]) + Line(entries[|entries| - 1].0, entries[|entries| - 1].1)
  }

  /** The line printer of `export`, on the entries already scraped. */
  method Export(entries: seq<(string, string)>) returns (text: string, count: nat)
    ensures text == Printed(entries) && count == |entries|
  {
    text := "";
    for i := 0 to |entries|
      invariant text == Printed(entries[..i])
    {
      assert entries[..i + 1][..i] == entries[..i];
      text := text + (entries[i].0 + " all <" + entries[i].1 + ">\n");
    }
    assert entries[..|entries|] == entries;
    count := |entries|;
  }

  // ------------------------------------------------------------------ the parser, line by line

  /** `^@.+`: any character but a newline after the sign. */
  predicate TagLine(line: string) { |line| > 1 && line[0] == '@' && line[1] != '\n' }

  /** `^@ *$`: the sign and spaces, up to the end or a newline at the end. */
  predicate EmptyTagLine(line: string) {
    && line != "" && line[0] == '@'
    && var rest := if line[|line| - 1] == '\n' then line[1..|line| - 1] else line[1..];
       forall c :: c in rest ==> c == ' '
  }

  function TagOf(line: string): string
    requires TagLine(line)
  {
    StripRight(StripRight(line[1..], {'\n'}), {'\r'})
  }

  /** `#.+\n` removed: a comment needs a character and a newline after its sign. */
  function Uncommented(line: string): string {
    var sign := IndexOf(line, '#');
    if line != "" && line[|line| - 1] == '\n' && sign + 2 < |line| then line[..sign] else line
  }

  /** `<.*>`, greedy: from the first `<` to the last `>` after it. */
  function Rename(s: string): string {
    var i := IndexOf(s, '<');
    if i == |s| then "" else UpToLast(s[i + 1..])
  }

  function UpToLast(s: string): string {
    if s == "" then "" else if s[|s| - 1] == '>' then s[..|s| - 1] else UpToLast(s[..|s| - 1])
  }

  datatype Row = Row(sn: nat, mode: string, rename: string)

  function RowOf(line: string, defaultMode: string): Option<Row> {
    RowOfStripped(Collapse(Strip(Uncommented(line))), defaultMode)
  }

  function RowOfStripped(stripped: string, defaultMode: string): Option<Row> {
    var parts := Words(stripped);
    if !Digits(parts[0]) then None
    else if |parts| == 1 then Some(Row(ToInt(parts[0]), defaultMode, ""))
    else Some(Row(ToInt(parts[0]), if parts[1] in MODES then parts[1] else defaultMode, Rename(stripped)))
  }

  /** The tag in force and the rows read so far. */
  datatype Reading = Reading(tag: string, items: map<nat, Item>)

  function Read(r: Reading, line: string, defaultMode: string): Reading {
    if TagLine(line) && !EmptyTagLine(line) then r.(tag := TagOf(line))
    else if EmptyTagLine(line) then r.(tag := "")
    else
      match RowOf(line, defaultMode)
      case None => r
      case Some(row) => r.(items := r.items[row.sn := Item(row.mode, StripRight(r.tag, {' '}), row.rename)])
  }

  function ReadAll(lines: seq<string>, defaultMode: string): Reading {
    if lines == [] then Reading("", map[])
    else Read(ReadAll(lines[..|lines| - 1], defaultMode), lines[|lines| - 1], defaultMode)
  }

  method ParseLegacy(raw: string, defaultMode: string) returns (snDict: map<nat, Item>)
    ensures snDict == ReadAll(SplitLines(raw), defaultMode).items
  {
    snDict := map[];
    var bangumiTag := "";
    var lines := SplitLines(raw);
    for i := 0 to |lines|
      invariant ReadAll(lines[..i], defaultMode) == Reading(bangumiTag, snDict)
    {
      assert lines[..i + 1][..i] == lines[..i];
      var line := lines[i];
      if TagLine(line) && !EmptyTagLine(line) {
        bangumiTag := TagOf(line);
        continue;
      }
      if EmptyTagLine(line) {
        bangumiTag := "";
        continue;
      }
      var stripped := Collapse(Strip(Uncommented(line)));
      var parts := Words(stripped);
      if parts[0] == "" || !Digits(parts[0]) {
        continue;
      }
      var mode, rename := defaultMode, "";
      if |parts| > 1 {
        mode := if parts[1] in MODES then parts[1] else defaultMode;
        rename := Rename(stripped);
      }
      snDict := snDict[ToInt(parts[0]) := Item(mode, StripRight(bangumiTag, {' '}), rename)];
    }
    assert lines[..|lines|] == lines;
  }

  // ------------------------------------------------------------------ what a text means

  predicate Opens(line: string) { line != "" && line[0] == '@' }

  /** What a category line names: all after its sign but the line end and the spaces at the end. */
  function CategoryOf(line: string): string
    requires line != ""
  {
    StripRight(StripRight(StripRight(line[1..], {'\n'}), {'\r'}), {' '})
  }

  /** The words of a line, without its comment and with runs of spaces as one. */
  function Body(line: string): string { Collapse(Strip(Uncommented(line))) }

  predicate RowFor(line: string, sn: nat) {
    !Opens(line) && Digits(Words(Body(line))[0]) && ToInt(Words(Body(line))[0]) == sn
  }

  /** Its second word when that is one of the three modes, else the default. */
  predicate ModeOf(line: string, defaultMode: string, mode: string) {
    var words := Words(Body(line));
    if |words| > 1 && (words[1] == "all" || words[1] == "latest" || words[1] == "largest-sn") then mode == words[1]
    else mode == defaultMode
  }

  ghost predicate LastOpening(lines: seq<string>, c: nat, k: nat)
    requires k <= |lines|
  {
    c < k && Opens(lines[c]) && forall j :: c < j < k ==> !Opens(lines[j])
  }

  /** The category of the last category line before line `k`, none without such a line. */
  ghost predicate CategoryAt(lines: seq<string>, k: nat, tag: string)
    requires k <= |lines|
  {
    && (forall c: nat | LastOpening(lines, c, k) :: tag == CategoryOf(lines[c]))
    && ((forall c :: 0 <= c < k ==> !Opens(lines[c])) ==> tag == "")
  }

  lemma EmptyCategory(line: string)
    requires EmptyTagLine(line)
    ensures CategoryOf(line) == ""
  {
    var end := if line[|line| - 1] == '\n' then |line| - 1 else |line|;
    var rest := line[1..end];
    StripRightIs(line[1..], {'\n'});
    var r := StripRight(line[1..], {'\n'});
    assert r <= line[1..];
    assert forall i :: 1 <= i < end ==> line[i] in rest;
    assert r <= rest;
    StripRightIs(r, {'\r'});
    AllSpaceGoes(StripRight(r, {'\r'}), {' '});
  }

  lemma CategoryLine(r: Reading, line: string, defaultMode: string)
    requires IsLine(line) && Opens(line)
    ensures var after := Read(r, line, defaultMode);
      after.items == r.items && StripRight(after.tag, {' '}) == CategoryOf(line)
  {
    if EmptyTagLine(line) {
      EmptyCategory(line);
    } else {
      assert |line| > 1;
    }
  }

  lemma OneWordHasNoRename(body: string)
    requires Digits(Words(body)[0]) && |Words(body)| == 1
    ensures Rename(body) == ""
  {
    WordsAre(body);
    assert forall i :: 0 <= i < |body| ==> body[i] != '<';
  }

  lemma OtherLine(r: Reading, line: string, defaultMode: string, sn: nat)
    requires !Opens(line)
    ensures var after := Read(r, line, defaultMode);
      && after.tag == r.tag
      && (RowFor(line, sn) ==>
            && sn in after.items && ModeOf(line, defaultMode, after.items[sn].mode)
            && after.items[sn].tag == StripRight(r.tag, {' '}) && after.items[sn].rename == Rename(Body(line)))
      && (!RowFor(line, sn) ==>
            && (sn in after.items <==> sn in r.items)
            && (sn in r.items ==> after.items[sn] == r.items[sn]))
  {
    assert MODES[0] == "all" && MODES[1] == "latest" && MODES[2] == "largest-sn";
    if Digits(Words(Body(line))[0]) && |Words(Body(line))| == 1 {
      OneWordHasNoRename(Body(line));
    }
  }

  lemma {:induction false} CategoryInForce(lines: seq<string>, defaultMode: string)
    requires forall i :: 0 <= i < |lines| ==> IsLine(lines[i])
    ensures CategoryAt(lines, |lines|, StripRight(ReadAll(lines, defaultMode).tag, {' '}))
  {
    if lines != [] {
      CategoryInForce(lines[..|lines| - 1], defaultMode);
      CategoryInForceStep(lines, lines[..|lines| - 1], lines[|lines| - 1], defaultMode);
    }
  }

  lemma CategoryInForceStep(lines: seq<string>, init: seq<string>, line: string, defaultMode: string)
    requires IsLine(line) && lines == init + [line]
    requires CategoryAt(init, |init|, StripRight(ReadAll(init, defaultMode).tag, {' '}))
    ensures CategoryAt(lines, |lines|, StripRight(ReadAll(lines, defaultMode).tag, {' '}))
  {
    var r := ReadAll(init, defaultMode);
    ReadAllMore(init, line, defaultMode);
    if Opens(line) {
      CategoryLine(r, line, defaultMode);
      assert lines[|init|] == line;
    } else {
      OtherLine(r, line, defaultMode, 0);
      CategoryStays(init, line, StripRight(r.tag, {' '}));
    }
  }

  lemma CategoryStays(lines: seq<string>, line: string, tag: string)
    requires CategoryAt(lines, |lines|, tag)
    ensures CategoryAt(lines + [line], |lines|, tag)
    ensures !Opens(line) ==> CategoryAt(lines + [line], |lines| + 1, tag)
  {
    var all := lines + [line];
    assert forall c :: 0 <= c < |lines| ==> all[c] == lines[c];
    forall c: nat | LastOpening(all, c, |lines|) ensures tag == CategoryOf(all[c]) {
      assert LastOpening(lines, c, |lines|);
    }
    forall c: nat | !Opens(line) && LastOpening(all, c, |lines| + 1) ensures tag == CategoryOf(all[c]) {
      assert LastOpening(lines, c, |lines|);
    }
  }

  lemma {:induction false} LastRowDecides(lines: seq<string>, defaultMode: string, sn: nat, k: nat)
    requires k < |lines| && forall i :: 0 <= i < |lines| ==> IsLine(lines[i])
    requires RowFor(lines[k], sn) && forall j :: k < j < |lines| ==> !RowFor(lines[j], sn)
    ensures var items := ReadAll(lines, defaultMode).items;
      && sn in items && ModeOf(lines[k], defaultMode, items[sn].mode)
      && CategoryAt(lines, k, items[sn].tag) && items[sn].rename == Rename(Body(lines[k]))
  {
    var n := |lines| - 1;
    var init, line := lines[..n], lines[n];
    var r := ReadAll(init, defaultMode);
    assert init + [line] == lines;
    if k == n {
      CategoryInForce(init, defaultMode);
      OtherLine(r, line, defaultMode, sn);
      CategoryStays(init, line, StripRight(r.tag, {' '}));
    } else {
      LastRowDecides(init, defaultMode, sn, k);
      CategoryBefore(init, line, k, r.items[sn].tag);
      if Opens(line) {
        CategoryLine(r, line, defaultMode);
      } else {
        OtherLine(r, line, defaultMode, sn);
      }
    }
  }

  lemma CategoryBefore(lines: seq<string>, line: string, k: nat, tag: string)
    requires k <= |lines| && CategoryAt(lines, k, tag)
    ensures CategoryAt(lines + [line], k, tag)
  {
    var all := lines + [line];
    assert forall c :: 0 <= c < k ==> all[c] == lines[c];
    forall c: nat | LastOpening(all, c, k) ensures tag == CategoryOf(all[c]) {
      assert LastOpening(lines, c, k);
    }
  }

  lemma {:induction false} ReadIffRow(lines: seq<string>, defaultMode: string, sn: nat)
    requires forall i :: 0 <= i < |lines| ==> IsLine(lines[i])
    ensures sn in ReadAll(lines, defaultMode).items <==> AnyRow(lines, sn)
  {
    if lines != [] {
      ReadIffRow(lines[..|lines| - 1], defaultMode, sn);
      ReadIffRowStep(lines, lines[..|lines| - 1], lines[|lines| - 1], defaultMode, sn);
    }
  }

  ghost predicate AnyRow(lines: seq<string>, sn: nat) { exists k :: 0 <= k < |lines| && RowFor(lines[k], sn) }

  lemma ReadIffRowStep(lines: seq<string>, init: seq<string>, line: string, defaultMode: string, sn: nat)
    requires IsLine(line) && lines == init + [line] && (sn in ReadAll(init, defaultMode).items <==> AnyRow(init, sn))
    ensures sn in ReadAll(lines, defaultMode).items <==> AnyRow(lines, sn)
  {
    ReadAllMore(init, line, defaultMode);
    assert lines[|init|] == line && forall k :: 0 <= k < |init| ==> lines[k] == init[k];
    if Opens(line) {
      CategoryLine(ReadAll(init, defaultMode), line, defaultMode);
    } else {
      OtherLine(ReadAll(init, defaultMode), line, defaultMode, sn);
    }
  }

  /** What the parser makes of any text: exactly the sns that have a row; each has the mode and the
      rename of its last row and the category in force there. */
  lemma ParsedIs(raw: string, defaultMode: string, sn: nat)
    ensures var lines, items := SplitLines(raw), ReadAll(SplitLines(raw), defaultMode).items;
      && (sn in items <==> AnyRow(lines, sn))
      && forall k :: 0 <= k < |lines| && RowFor(lines[k], sn)
                     && (forall j :: k < j < |lines| ==> !RowFor(lines[j], sn)) ==>
           && ModeOf(lines[k], defaultMode, items[sn].mode)
           && CategoryAt(lines, k, items[sn].tag) && items[sn].rename == Rename(Body(lines[k]))
  {
    var lines := SplitLines(raw);
    SplitLinesIs(raw);
    ReadIffRow(lines, defaultMode, sn);
    forall k | 0 <= k < |lines| && RowFor(lines[k], sn) && (forall j :: k < j < |lines| ==> !RowFor(lines[j], sn))
      ensures var items := ReadAll(lines, defaultMode).items;
        && sn in items && ModeOf(lines[k], defaultMode, items[sn].mode)
        && CategoryAt(lines, k, items[sn].tag) && items[sn].rename == Rename(Body(lines[k]))
    {
      LastRowDecides(lines, defaultMode, sn, k);
    }
  }

  /** A bracketed name goes from the first `<` to the last `>` after it. */
  lemma RenameIs(before: string, name: string, after: string)
    requires '<' !in before && '>' !in after
    ensures Rename(before + "<" + name + ">" + after) == name
  {
    var s, rest := before + "<" + name + ">" + after, name + ">" + after;
    assert s == before + ['<'] + rest;
    IndexAfter(before, '<', rest);
    assert s[|before| + 1..] == rest;
    UpToLastIs(name, after);
  }

  lemma {:induction false} UpToLastIs(name: string, after: string)
    requires '>' !in after
    ensures UpToLast(name + ">" + after) == name
    decreases |after|
  {
    var s := name + ">" + after;
    if after == "" {
      assert s[..|s| - 1] == name;
    } else {
      var n := |after| - 1;
      UpToLastIs(name, after[..n]);
      assert s[|s| - 1] == after[n] && after[n] in after;
      assert s[..|s| - 1] == name + ">" + after[..n];
    }
  }

  /** A line without a `<` or without a `>` after it has none. */
  lemma NoRename(before: string, after: string)
    requires '<' !in before && '>' !in after
    ensures Rename(before + "<" + after) == "" && Rename(before) == ""
  {
    var s := before + "<" + after;
    assert s == before + ['<'] + after;
    IndexAfter(before, '<', after);
    assert s[|before| + 1..] == after;
    NoLast(after);
  }

  lemma {:induction false} NoLast(s: string)
    requires '>' !in s
    ensures UpToLast(s) == ""
  {
    if s != "" {
      assert s[|s| - 1] in s;
      NoLast(s[..|s| - 1]);
    }
  }

  /** A comment goes with its line end when it says something; anything else of the line stays. */
  lemma CommentGoes(before: string, comment: string)
    requires '#' !in before
    ensures comment != "" ==> Uncommented(before + "#" + comment + "\n") == before
    ensures Uncommented(before + "#\n") == before + "#\n" && Uncommented(before) == before
    ensures Uncommented(before + "\n") == before + "\n"
  {
    IndexAfter(before, '#', comment + "\n");
    IndexAfter(before, '#', "\n");
    assert before + "#" + comment + "\n" == before + ['#'] + (comment + "\n");
    assert before + "#\n" == before + ['#'] + "\n";
  }

  function Decimal(n: nat): (s: string)
    ensures Digits(s)
  {
    var last := ['0' + (n % 10) as char];
    if n < 10 then last else Decimal(n / 10) + last
  }

  /** Reading a number's digits gives the number, leading zeros or not. */
  lemma {:induction false} DecimalIs(n: nat, zeros: string)
    requires forall i :: 0 <= i < |zeros| ==> zeros[i] == '0'
    ensures Digits(zeros + Decimal(n)) && ToInt(zeros + Decimal(n)) == n
  {
    var s := zeros + Decimal(n);
    var last := ['0' + (n % 10) as char];
    if n < 10 {
      assert s[..|s| - 1] == zeros;
      ZerosAre(zeros);
    } else {
      DecimalIs(n / 10, zeros);
      assert s == zeros + Decimal(n / 10) + last;
      assert s[..|s| - 1] == zeros + Decimal(n / 10);
    }
  }

  lemma {:induction false} ZerosAre(zeros: string)
    requires forall i :: 0 <= i < |zeros| ==> zeros[i] == '0'
    ensures (forall i :: 0 <= i < |zeros| ==> Digit(zeros[i])) && ToInt(zeros) == 0
  {
    if zeros != "" {
      ZerosAre(zeros[..|zeros| - 1]);
    }
  }

  // ------------------------------------------------------------------ round trip

  predicate OneLine(name: string) { forall c :: c in name ==> c !in LINE_BREAKS }

  /** Names that survive: no comment sign, no two spaces together. */
  predicate Clean(name: string) { '#' !in name && !DoubleSpace(name) }

  predicate Printable(entries: seq<(string, string)>) {
    forall k :: 0 <= k < |entries| ==> Digits(entries[k].0) && OneLine(entries[k].1)
  }

  lemma {:induction false} OneLineLength(body: string, rest: string)
    requires OneLine(body)
    ensures LineLength(body + "\n" + rest) == |body| + 1
  {
    var text := body + "\n" + rest;
    if body != "" {
      OneLineLength(body[1..], rest);
      assert text[1..] == body[1..] + "\n" + rest;
    }
  }

  lemma {:induction false} SplitLinesOfMore(a: string, body: string)
    requires OneLine(body) && (a == "" || a[|a| - 1] == '\n')
    ensures SplitLines(a + (body + "\n")) == SplitLines(a) + [body + "\n"]
  {
    var text := a + (body + "\n");
    if a == "" {
      OneLineLength(body, "");
      assert text == body + "\n" + "";
      assert text[..|text|] == body + "\n" && text[|text|..] == "";
      assert SplitLines(text) == [body + "\n"] + SplitLines("");
    } else {
      var n := LineLength(a);
      LineLengthOfMore(a, body + "\n");
      SplitLinesOfMore(a[n..], body);
      assert text[..n] == a[..n] && text[n..] == a[n..] + (body + "\n");
    }
  }

  lemma {:induction false} LineLengthOfMore(a: string, b: string)
    requires a != "" && a[|a| - 1] == '\n'
    ensures LineLength(a + b) == LineLength(a)
  {
    assert (a + b)[1..] == a[1..] + b;
    if a[0] !in LINE_BREAKS {
      LineLengthOfMore(a[1..], b);
    }
  }

  lemma HeadWords(sn: string, m: string)
    requires Digits(sn)
    ensures Words(sn + " all <" + m) == [sn, "all"] + Words("<" + m)
  {
    FirstWord("all", "<" + m);
    var rest := "all" + " " + ("<" + m);
    FirstWord(sn, rest);
    HeadSpelled(sn, m);
    TwoInFront(sn, "all", Words("<" + m));
  }

  lemma HeadSpelled(sn: string, m: string)
    ensures sn + " all <" + m == sn + " " + ("all" + " " + ("<" + m))
  {
    assert " all <" == " " + "all" + " " + "<";
  }

  lemma TwoInFront(a: string, b: string, rest: seq<string>)
    ensures [a] + ([b] + rest) == [a, b] + rest
  {
  }

  lemma HeadRename(sn: string, m: string)
    requires Digits(sn)
    ensures Rename(sn + " all <" + m) == UpToLast(m)
  {
    var s := sn + " all <" + m;
    assert s == (sn + " all ") + ['<'] + m;
    IndexAfter(sn + " all ", '<', m);
    assert s[|sn| + 6..] == m;
  }

  /** However the rest of the text goes on, `sn all <` is read as that sn with mode `all`. */
  lemma PrintedHead(sn: string, m: string, defaultMode: string)
    requires Digits(sn)
    ensures RowOfStripped(sn + " all <" + m, defaultMode) == Some(Row(ToInt(sn), "all", UpToLast(m)))
  {
    HeadWords(sn, m);
    HeadRename(sn, m);
    assert MODES[0] == "all";
  }

  lemma StripKeepsHead(sn: string, m: string)
    requires Digits(sn)
    ensures sn + " all <" <= Strip(sn + " all <" + m) <= sn + " all <" + m
  {
    var s := sn + " all <" + m;
    assert s[0] in sn && s[|sn| + 5] == '<';
    StripKeepsFront(s, |sn| + 6, WHITESPACE);
    assert s[..|sn| + 6] == sn + " all <";
  }

  lemma CollapseKeepsHead(sn: string, m: string)
    requires Digits(sn)
    ensures Collapse(sn + " all <" + m) == sn + " all <" + Collapse(m)
  {
    var head := sn + " all <";
    CollapseJoins(head, m);
    assert forall i :: 0 <= i < |head| - 1 ==> !DoubleAt(head, i) by {
      assert forall i :: 0 <= i < |sn| ==> head[i] in sn;
    }
    CollapseIff(head);
  }

  lemma {:induction false} UpToLastShrinks(s: string)
    ensures |UpToLast(s)| <= |s| && (s != "" ==> |UpToLast(s)| < |s|)
  {
    if s != "" {
      UpToLastShrinks(s[..|s| - 1]);
    }
  }

  /** What one printed line is read back as: its sn, mode `all`, and the name exactly when it is clean. */
  lemma PrintedLine(sn: string, name: string, defaultMode: string)
    requires Digits(sn) && OneLine(name)
    ensures !TagLine(Line(sn, name)) && !EmptyTagLine(Line(sn, name))
    ensures var row := RowOf(Line(sn, name), defaultMode);
      && row.Some? && row.value.sn == ToInt(sn) && row.value.mode == "all"
      && (row.value.rename == name <==> Clean(name))
  {
    var line := Line(sn, name);
    assert line[0] in sn;
    if '#' in name {
      CommentedLine(sn, name, defaultMode);
    } else {
      UncommentedLine(sn, name, defaultMode);
    }
  }

  lemma BodyStays(line: string)
    requires |line| > 1 && Digit(line[0]) && line[|line| - 2] == '>' && line[|line| - 1] == '\n'
    ensures Strip(line) == line[..|line| - 1]
  {
    StripKeepsFront(line, |line| - 1, WHITESPACE);
    assert StripRight(line, WHITESPACE) == StripRight(line[..|line| - 1], WHITESPACE);
  }

  lemma PlainBody(sn: string, name: string)
    requires Digits(sn) && '#' !in name
    ensures Strip(Uncommented(Line(sn, name))) == sn + " all <" + (name + ">")
  {
    var line := Line(sn, name);
    assert '#' !in line by {
      assert forall c :: c in line ==> c in sn || c in " all <" || c in name || c in ">\n";
    }
    assert Uncommented(line) == line;
    assert line[0] == sn[0];
    BodyStays(line);
    assert line[..|line| - 1] == sn + " all <" + (name + ">");
  }

  lemma UncommentedLine(sn: string, name: string, defaultMode: string)
    requires Digits(sn) && '#' !in name
    ensures RowOf(Line(sn, name), defaultMode) == Some(Row(ToInt(sn), "all", Collapse(name)))
    ensures Collapse(name) == name <==> Clean(name)
  {
    PlainBody(sn, name);
    CollapseKeepsHead(sn, name + ">");
    CollapseJoins(name, ">");
    CollapseIff(name);
    PrintedHead(sn, Collapse(name) + ">", defaultMode);
    var m := Collapse(name) + ">";
    assert m[..|m| - 1] == Collapse(name) && UpToLast(m) == Collapse(name);
    assert sn + " all <" + (Collapse(name) + Collapse(">")) == sn + " all <" + m;
  }

  lemma CommentedLine(sn: string, name: string, defaultMode: string)
    requires Digits(sn) && OneLine(name) && '#' in name
    ensures var row := RowOf(Line(sn, name), defaultMode);
      row.Some? && row.value.sn == ToInt(sn) && row.value.mode == "all" && |row.value.rename| < |name|
  {
    var line, p := Line(sn, name), IndexOf(name, '#');
    var before := name[..p];
    assert p < |name|;
    assert line == (sn + " all <" + before) + ['#'] + (name[p + 1..] + ">\n");
    assert '#' !in sn + " all <" + before by {
      assert forall c :: c in sn + " all <" + before ==> c in sn || c in " all <" || c in before;
    }
    IndexAfter(sn + " all <" + before, '#', name[p + 1..] + ">\n");
    assert Uncommented(line) == sn + " all <" + before;
    StripKeepsHead(sn, before);
    var stripped := Strip(sn + " all <" + before);
    var m := stripped[|sn| + 6..];
    assert stripped == sn + " all <" + m;
    CollapseKeepsHead(sn, m);
    PrintedHead(sn, Collapse(m), defaultMode);
    UpToLastShrinks(Collapse(m));
  }

  /** The last entry printed for a sn. */
  function LastName(entries: seq<(string, string)>, sn: nat): Option<string>
    requires Printable(entries)
  {
    if entries == [] then None
    else if ToInt(entries[|entries| - 1].0) == sn then Some(entries[|entries| - 1].1)
    else LastName(entries[..|entries| - 1], sn)
  }

  function Lines(entries: seq<(string, string)>): seq<string> {
    if entries == [] then []
    else Lines(entries[..|entries| - 1]) + [Line(entries[|entries| - 1].0, entries[|entries| - 1].1)]
  }

  lemma PrintedIsOneLine(sn: string, name: string)
    requires Digits(sn) && OneLine(name)
    ensures OneLine(sn + " all <" + name + ">")
    ensures Line(sn, name) == (sn + " all <" + name + ">") + "\n"
  {
    assert forall c :: c in sn + " all <" + name + ">" ==> c in sn || c in " all <" || c in name || c in ">";
  }

  /** `splitlines` finds the printed lines again. */
  lemma {:induction false} PrintedLines(entries: seq<(string, string)>)
    requires Printable(entries)
    ensures SplitLines(Printed(entries)) == Lines(entries)
    ensures Printed(entries) == "" || Printed(entries)[|Printed(entries)| - 1] == '\n'
  {
    if entries != [] {
      var init, last := entries[..|entries| - 1], entries[|entries| - 1];
      PrintedLines(init);
      PrintedIsOneLine(last.0, last.1);
      SplitLinesOfMore(Printed(init), last.0 + " all <" + last.1 + ">");
    }
  }

  /** Reading back what was printed: exactly the printed sns, each with mode `all` and no tag, the
      last entry of a sn winning; its name comes back exactly when it is clean. */
  ghost predicate Echoes(r: Reading, entries: seq<(string, string)>)
    requires Printable(entries)
  {
    && r.tag == ""
    && (forall sn: nat :: sn in r.items <==> LastName(entries, sn).Some?)
    && forall sn: nat :: sn in r.items ==> ReadBack(r.items[sn], LastName(entries, sn))
  }

  lemma EchoesOneMore(r: Reading, init: seq<(string, string)>, sn: string, name: string, defaultMode: string)
    requires Printable(init) && Digits(sn) && OneLine(name) && Echoes(r, init)
    ensures Printable(init + [(sn, name)]) && Echoes(Read(r, Line(sn, name), defaultMode), init + [(sn, name)])
  {
    PrintedLine(sn, name, defaultMode);
    assert (init + [(sn, name)])[..|init|] == init;
  }

  lemma {:induction false} LinesEcho(entries: seq<(string, string)>, defaultMode: string)
    requires Printable(entries)
    ensures Echoes(ReadAll(Lines(entries), defaultMode), entries)
  {
    if entries != [] {
      var init, last := entries[..|entries| - 1], entries[|entries| - 1];
      LinesEcho(init, defaultMode);
      LinesEchoStep(init, last, defaultMode);
      assert init + [last] == entries;
    }
  }

  lemma LinesEchoStep(init: seq<(string, string)>, last: (string, string), defaultMode: string)
    requires Printable(init) && Digits(last.0) && OneLine(last.1) && Echoes(ReadAll(Lines(init), defaultMode), init)
    ensures Printable(init + [last]) && Echoes(ReadAll(Lines(init + [last]), defaultMode), init + [last])
  {
    EchoesOneMore(ReadAll(Lines(init), defaultMode), init, last.0, last.1, defaultMode);
    ReadAllMore(Lines(init), Line(last.0, last.1), defaultMode);
    assert (init + [last])[..|init|] == init;
    assert last == (last.0, last.1);
  }

  lemma ReadAllMore(lines: seq<string>, line: string, defaultMode: string)
    ensures ReadAll(lines + [line], defaultMode) == Read(ReadAll(lines, defaultMode), line, defaultMode)
  {
    assert (lines + [line])[..|lines|] == lines;
  }

  lemma RoundTrip(entries: seq<(string, string)>, defaultMode: string)
    requires Printable(entries)
    ensures Echoes(ReadAll(SplitLines(Printed(entries)), defaultMode), entries)
  {
    PrintedLines(entries);
    LinesEcho(entries, defaultMode);
  }

  predicate ReadBack(item: Item, name: Option<string>) {
    name.Some? && item.mode == "all" && item.tag == "" && (item.rename == name.value <==> Clean(name.value))
  }

  /** With clean names the round trip is exact. */
  lemma CleanRoundTrip(entries: seq<(string, string)>, defaultMode: string, sn: nat)
    requires Printable(entries) && forall k :: 0 <= k < |entries| ==> Clean(entries[k].1)
    requires LastName(entries, sn).Some?
    ensures var items := ReadAll(SplitLines(Printed(entries)), defaultMode).items;
      sn in items && items[sn] == Item("all", "", LastName(entries, sn).value)
  {
    RoundTrip(entries, defaultMode);
    LastNameIsOne(entries, sn);
  }

  lemma {:induction false} LastNameIsOne(entries: seq<(string, string)>, sn: nat)
    requires Printable(entries) && LastName(entries, sn).Some?
    ensures exists k :: 0 <= k < |entries| && ToInt(entries[k].0) == sn && entries[k].1 == LastName(entries, sn).value
  {
    var n := |entries| - 1;
    if ToInt(entries[n].0) != sn {
      LastNameIsOne(entries[..n], sn);
      var k :| 0 <= k < n && ToInt(entries[..n][k].0) == sn && entries[..n][k].1 == LastName(entries, sn).value;
      assert entries[k] == entries[..n][k];
    }
  }

  // ------------------------------------------------------------------ categories and modes, written by hand

  predicate CategoryName(tag: string) { OneLine(tag) && (tag == "" || tag[|tag| - 1] != ' ') }

  lemma CategoryRead(tag: string)
    requires CategoryName(tag)
    ensures Opens("@" + tag + "\n") && CategoryOf("@" + tag + "\n") == tag
  {
    var rest := ("@" + tag + "\n")[1..];
    assert rest == tag + "\n" && rest[..|rest| - 1] == tag;
    assert tag != "" ==> tag[|tag| - 1] in tag;
    assert StripRight(tag, {'\n'}) == tag && StripRight(tag, {'\r'}) == tag && StripRight(tag, {' '}) == tag;
  }

  lemma ModeWord(mode: string)
    requires mode in MODES
    ensures |mode| >= 3 && mode[0] in {'a', 'l'} && mode[|mode| - 1] in {'l', 't', 'n'}
    ensures forall i :: 0 <= i < |mode| ==> 'a' <= mode[i] <= 'z' || mode[i] == '-'
  {
  }

  /** Text without comment, brackets, spaces at its ends or two together is its own body. */
  lemma PlainLine(body: string)
    requires body != "" && '#' !in body && body[0] !in WHITESPACE && body[|body| - 1] !in WHITESPACE
    requires !DoubleSpace(body)
    ensures Body(body + "\n") == body
  {
    var line := body + "\n";
    CommentGoes(body, "");
    StripIs(line, 0, |body|);
    assert line[0..|body|] == body;
    CollapseIff(body);
  }

  lemma RowText(sn: string, mode: string)
    requires Digits(sn) && mode in MODES
    ensures var body := sn + " " + mode;
      '#' !in body && '<' !in body && body[0] !in WHITESPACE && body[|body| - 1] !in WHITESPACE && !DoubleSpace(body)
  {
    ModeWord(mode);
    var body := sn + " " + mode;
    assert body[0] == sn[0] && body[|body| - 1] == mode[|mode| - 1];
    assert forall i :: 0 <= i < |body| - 1 ==> !DoubleAt(body, i);
  }

  lemma RowBody(sn: string, mode: string)
    requires Digits(sn) && mode in MODES
    ensures Body(sn + " " + mode + "\n") == sn + " " + mode && Words(sn + " " + mode) == [sn, mode]
    ensures Rename(sn + " " + mode) == ""
  {
    RowText(sn, mode);
    ModeWord(mode);
    PlainLine(sn + " " + mode);
    FirstWord(sn, mode);
    OneWord(mode);
    NoRename(sn + " " + mode, "");
  }

  lemma RowRead(r: Reading, sn: string, mode: string, defaultMode: string)
    requires Digits(sn) && mode in MODES
    ensures Read(r, sn + " " + mode + "\n", defaultMode) ==
      r.(items := r.items[ToInt(sn) := Item(mode, StripRight(r.tag, {' '}), "")])
  {
    RowBody(sn, mode);
    var line := sn + " " + mode + "\n";
    assert line[0] == sn[0];
    assert RowOf(line, defaultMode) == RowOfStripped(Body(line), defaultMode);
  }

  /** One thing a hand-written list says: a category from here on, or an sn with its mode. */
  datatype Listed = Category(tag: string) | Episode(sn: string, mode: string)

  predicate Writable(l: Listed) {
    match l
    case Category(tag) => CategoryName(tag)
    case Episode(sn, mode) => Digits(sn) && mode in MODES
  }

  function TextOf(l: Listed): string {
    match l
    case Category(tag) => "@" + tag
    case Episode(sn, mode) => sn + " " + mode
  }

  function LineOf(l: Listed): string { TextOf(l) + "\n" }

  function Written(list: seq<Listed>): string {
    if list == [] then "" else Written(list[..|list| - 1]) + LineOf(list[|list| - 1])
  }

  function LinesWritten(list: seq<Listed>): seq<string> {
    if list == [] then [] else LinesWritten(list[..|list| - 1]) + [LineOf(list[|list| - 1])]
  }

  /** What the list says, item by item. */
  function Meant(list: seq<Listed>): (string, map<nat, Item>)
    requires forall i :: 0 <= i < |list| ==> Writable(list[i])
  {
    if list == [] then ("", map[])
    else
      assert Writable(list[|list| - 1]);
      var (tag, items) := Meant(list[..|list| - 1]);
      match list[|list| - 1]
      case Category(name) => (name, items)
      case Episode(sn, mode) => (tag, items[ToInt(sn) := Item(mode, tag, "")])
  }

  lemma ListedIsLine(l: Listed)
    requires Writable(l)
    ensures OneLine(TextOf(l))
  {
    if l.Episode? {
      ModeWord(l.mode);
    }
  }

  lemma {:induction false} WrittenLines(list: seq<Listed>)
    requires forall i :: 0 <= i < |list| ==> Writable(list[i])
    ensures SplitLines(Written(list)) == LinesWritten(list)
    ensures Written(list) == "" || Written(list)[|Written(list)| - 1] == '\n'
  {
    if list != [] {
      var init, last := list[..|list| - 1], list[|list| - 1];
      WrittenLines(init);
      ListedIsLine(last);
      SplitLinesOfMore(Written(init), TextOf(last));
    }
  }

  lemma {:induction false} WrittenIsRead(list: seq<Listed>, defaultMode: string)
    requires forall i :: 0 <= i < |list| ==> Writable(list[i])
    ensures var r, (tag, items) := ReadAll(LinesWritten(list), defaultMode), Meant(list);
      StripRight(r.tag, {' '}) == tag && r.items == items
  {
    if list != [] {
      var init, last := list[..|list| - 1], list[|list| - 1];
      WrittenIsRead(init, defaultMode);
      ReadAllMore(LinesWritten(init), LineOf(last), defaultMode);
      var r := ReadAll(LinesWritten(init), defaultMode);
      match last
      case Category(tag) =>
        ListedIsLine(last);
        CategoryRead(tag);
        CategoryLine(r, LineOf(last), defaultMode);
      case Episode(sn, mode) =>
        RowRead(r, sn, mode, defaultMode);
    }
  }

  /** A list of categories and of rows in all three modes comes back as what it says. */
  lemma ListRoundTrip(list: seq<Listed>, defaultMode: string)
    requires forall i :: 0 <= i < |list| ==> Writable(list[i])
    ensures ReadAll(SplitLines(Written(list)), defaultMode).items == Meant(list).1
  {
    WrittenLines(list);
    WrittenIsRead(list, defaultMode);
  }
}
