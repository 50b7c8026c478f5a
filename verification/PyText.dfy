/** The string operations of Python that the modelled code uses. */
module PyText {
  /** What `str.strip()` strips. */
  const WHITESPACE: set<char> := {
    ' ', '\t', '\n', '\U{0B}', '\U{0C}', '\r', '\U{1C}', '\U{1D}', '\U{1E}', '\U{1F}', '\U{85}', '\U{A0}', '\U{1680}',
    '\U{2000}', '\U{2001}', '\U{2002}', '\U{2003}', '\U{2004}', '\U{2005}', '\U{2006}', '\U{2007}', '\U{2008}',
    '\U{2009}', '\U{200A}', '\U{2028}', '\U{2029}', '\U{202F}', '\U{205F}', '\U{3000}'}

  /** Where `str.splitlines()` breaks a line. */
  const LINE_BREAKS: set<char> := {
    '\n', '\r', '\U{0B}', '\U{0C}', '\U{1C}', '\U{1D}', '\U{1E}', '\U{85}', '\U{2028}', '\U{2029}'}

  function StripLeft(s: string, space: set<char>): string {
    if s != "" && s[0] in space then StripLeft(s[1..], space) else s
  }

  function StripRight(s: string, space: set<char>): string {
    if s != "" && s[|s| - 1] in space then StripRight(s[..|s| - 1], space) else s
  }

  function Strip(s: string): string { StripRight(StripLeft(s, WHITESPACE), WHITESPACE) }

  /** What is stripped is all space, and what stays has none at that end. */
  lemma {:induction false} StripRightIs(s: string, space: set<char>)
    ensures var r := StripRight(s, space);
      r <= s && (forall i :: |r| <= i < |s| ==> s[i] in space) && (r != "" ==> r[|r| - 1] !in space)
  {
    if s != "" && s[|s| - 1] in space {
      StripRightIs(s[..|s| - 1], space);
      assert forall i :: 0 <= i < |s| - 1 ==> s[i] == s[..|s| - 1][i];
    }
  }

  lemma {:induction false} StripLeftIs(s: string, space: set<char>)
    ensures var r := StripLeft(s, space);
      && |r| <= |s| && s[|s| - |r|..] == r && (forall i :: 0 <= i < |s| - |r| ==> s[i] in space)
      && (r != "" ==> r[0] !in space)
  {
    if s != "" && s[0] in space {
      StripLeftIs(s[1..], space);
      assert s == [s[0]] + s[1..];
    }
  }

  /** The text between its first and its last character that is no whitespace. */
  lemma StripIs(s: string, i: nat, j: nat)
    requires i < j <= |s| && s[i] !in WHITESPACE && s[j - 1] !in WHITESPACE
    requires forall k :: 0 <= k < |s| && (k < i || j <= k) ==> s[k] in WHITESPACE
    ensures Strip(s) == s[i..j]
  {
    StripLeftIs(s, WHITESPACE);
    var left := StripLeft(s, WHITESPACE);
    assert |s| - |left| == i;
    StripRightIs(left, WHITESPACE);
    var r := StripRight(left, WHITESPACE);
    assert forall k :: 0 <= k < |left| ==> left[k] == s[i + k];
    assert |r| == j - i;
  }

  lemma {:induction false} AllSpaceGoes(s: string, space: set<char>)
    requires forall c :: c in s ==> c in space
    ensures StripRight(s, space) == ""
  {
    if s != "" {
      AllSpaceGoes(s[..|s| - 1], space);
      assert s[|s| - 1] in s;
    }
  }

  lemma {:induction false} AllStripped(s: string, space: set<char>)
    ensures StripRight(StripLeft(s, space), space) == "" <==> forall c :: c in s ==> c in space
  {
    if s != "" && s[0] in space {
      AllStripped(s[1..], space);
      assert s == [s[0]] + s[1..];
    } else if s != "" {
      StripKeepsFront(s, 1, space);
      assert s[0] in s;
    }
  }

  /** Stripping on the right leaves everything up to a character that is not space. */
  lemma {:induction false} StripKeepsFront(s: string, n: nat, space: set<char>)
    requires 0 < n <= |s| && s[n - 1] !in space
    ensures s[..n] <= StripRight(s, space) <= s
  {
    if s[|s| - 1] in space {
      StripKeepsFront(s[..|s| - 1], n, space);
      assert s[..|s| - 1][..n] == s[..n];
    }
  }

  /** The length of the first line with its line break; `\r\n` is one break. */
  function LineLength(text: string): (n: nat)
    ensures n <= |text| && (text != "" ==> 0 < n)
  {
    if text == "" then 0
    else if text[0] !in LINE_BREAKS then 1 + LineLength(text[1..])
    else if text[0] == '\r' && |text| > 1 && text[1] == '\n' then 2
    else 1
  }

  /** `text.splitlines(keepends=True)`. */
  function SplitLines(text: string): seq<string> {
    if text == "" then [] else [text[..LineLength(text)]] + SplitLines(text[LineLength(text)..])
  }

  function Concat(lines: seq<string>): string {
    if lines == [] then "" else lines[0] + Concat(lines[1..])
  }

  /** A line is not empty and has a line break at its end alone. */
  predicate IsLine(line: string) {
    && line != ""
    && forall j :: 0 <= j < |line| - 1 && line[j] in LINE_BREAKS ==>
         j == |line| - 2 && line[j] == '\r' && line[j + 1] == '\n'
  }

  /** Every line but the last ends in a line break, and no `\r\n` is cut. */
  predicate AreLines(lines: seq<string>) {
    && (forall i :: 0 <= i < |lines| ==> IsLine(lines[i]))
    && (forall i :: 0 <= i < |lines| - 1 ==> lines[i][|lines[i]| - 1] in LINE_BREAKS)
    && (forall i :: 0 <= i < |lines| - 1 ==> !(lines[i][|lines[i]| - 1] == '\r' && lines[i + 1][0] == '\n'))
  }

  lemma {:induction false} FirstLineIsLine(text: string)
    requires text != ""
    ensures var n := LineLength(text);
      && IsLine(text[..n])
      && (n < |text| ==> text[n - 1] in LINE_BREAKS && !(text[n - 1] == '\r' && text[n] == '\n'))
  {
    if text[0] !in LINE_BREAKS && |text| > 1 {
      FirstLineIsLine(text[1..]);
      var n := LineLength(text);
      assert forall j :: 0 < j < n ==> text[..n][j] == text[1..][..n - 1][j - 1];
    }
  }

  /** Splitting loses nothing and cuts after the line breaks. */
  lemma {:induction false} SplitLinesIs(text: string)
    ensures Concat(SplitLines(text)) == text && AreLines(SplitLines(text))
  {
    if text != "" {
      var n := LineLength(text);
      FirstLineIsLine(text);
      SplitLinesIs(text[n..]);
      var first, rest := text[..n], SplitLines(text[n..]);
      assert Concat([first] + rest) == first + Concat(rest);
      assert rest != [] ==> text[n..][0] == rest[0][0];
      LineInFront(first, rest);
    }
  }

  lemma LineInFront(first: string, rest: seq<string>)
    requires IsLine(first) && AreLines(rest)
    requires rest != [] ==> first[|first| - 1] in LINE_BREAKS && !(first[|first| - 1] == '\r' && rest[0][0] == '\n')
    ensures AreLines([first] + rest)
  {
    var lines := [first] + rest;
    assert forall i :: 0 < i < |lines| ==> lines[i] == rest[i - 1];
  }

  /** `s.split(' ')`. */
  function Words(s: string): (words: seq<string>)
    ensures words != []
  {
    if s == "" then [""]
    else
      var rest := Words(s[1..]);
      if s[0] == ' ' then [""] + rest else [[s[0]] + rest[0]] + rest[1..]
  }

  lemma {:induction false} OneWord(w: string)
    requires ' ' !in w
    ensures Words(w) == [w]
  {
    if w != "" {
      OneWord(w[1..]);
      assert [w[0]] + w[1..] == w;
    }
  }

  lemma {:induction false} FirstWord(w: string, rest: string)
    requires ' ' !in w
    ensures Words(w + " " + rest) == [w] + Words(rest)
  {
    var s := w + " " + rest;
    if w == "" {
      assert s[1..] == rest;
    } else {
      FirstWord(w[1..], rest);
      assert s[1..] == w[1..] + " " + rest;
      assert [w[0]] + w[1..] == w;
    }
  }

  /** `' '.join(words)`. */
  function Spaced(words: seq<string>): string
    requires words != []
  {
    if |words| == 1 then words[0] else words[0] + " " + Spaced(words[1..])
  }

  /** The pieces between the spaces, every one of them. */
  lemma {:induction false} WordsAre(s: string)
    ensures Spaced(Words(s)) == s
    ensures forall i :: 0 <= i < |Words(s)| ==> ' ' !in Words(s)[i]
  {
    if s != "" {
      WordsAre(s[1..]);
      var rest := Words(s[1..]);
      if s[0] == ' ' {
        assert Words(s)[1..] == rest;
      } else {
        assert ([[s[0]] + rest[0]] + rest[1..])[1..] == rest[1..];
      }
    }
  }

  /** `re.sub(' +', ' ', s)`. */
  function Collapse(s: string): (r: string)
    ensures |r| <= |s|
  {
    if |s| < 2 then s
    else if s[0] == ' ' && s[1] == ' ' then Collapse(s[1..])
    else [s[0]] + Collapse(s[1..])
  }

  predicate DoubleSpace(s: string) { exists i :: 0 <= i < |s| - 1 && DoubleAt(s, i) }

  predicate DoubleAt(s: string, i: nat)
    requires i < |s| - 1
  {
    s[i] == ' ' && s[i + 1] == ' '
  }

  lemma {:induction false} CollapseIff(s: string)
    ensures Collapse(s) == s <==> !DoubleSpace(s)
    ensures DoubleSpace(s) ==> |Collapse(s)| < |s|
  {
    if |s| >= 2 {
      CollapseIff(s[1..]);
      assert s == [s[0]] + s[1..] && ([s[0]] + Collapse(s[1..]))[1..] == Collapse(s[1..]);
      assert forall i :: 0 <= i < |s| - 2 ==> DoubleAt(s[1..], i) == DoubleAt(s, i + 1);
      assert DoubleAt(s, 0) ==> DoubleSpace(s);
      if DoubleSpace(s[1..]) {
        var i :| 0 <= i < |s| - 2 && DoubleAt(s[1..], i);
        assert DoubleAt(s, i + 1);
      }
      if DoubleSpace(s) && !DoubleAt(s, 0) {
        var i :| 0 <= i < |s| - 1 && DoubleAt(s, i);
        assert DoubleAt(s[1..], i - 1);
      }
    }
  }

  /** Two spaces together count as one, and none are left together. */
  lemma {:induction false} CollapseTwo(a: string, b: string)
    ensures Collapse(a + "  " + b) == Collapse(a + " " + b)
  {
    if a == "" {
      assert (a + "  " + b)[1..] == " " + b && a + " " + b == " " + b;
    } else {
      CollapseTwo(a[1..], b);
      assert (a + "  " + b)[1..] == a[1..] + "  " + b && (a + " " + b)[1..] == a[1..] + " " + b;
    }
  }

  lemma {:induction false} CollapsedIsSingle(s: string)
    ensures !DoubleSpace(Collapse(s)) && (s != "" ==> Collapse(s) != "" && Collapse(s)[0] == s[0])
  {
    if |s| >= 2 {
      CollapsedIsSingle(s[1..]);
      var r, rest := Collapse(s), Collapse(s[1..]);
      if !(s[0] == ' ' && s[1] == ' ') {
        forall i | 0 <= i < |r| - 1 ensures !DoubleAt(r, i) {
          assert i > 0 ==> DoubleAt(r, i) == DoubleAt(rest, i - 1);
        }
      }
    }
  }

  /** Collapsing works piecewise where no run of spaces is cut. */
  lemma {:induction false} CollapseJoins(a: string, b: string)
    requires a == "" || b == "" || a[|a| - 1] != ' ' || b[0] != ' '
    ensures Collapse(a + b) == Collapse(a) + Collapse(b)
  {
    if a == "" {
      assert a + b == b;
    } else if b == "" {
      assert a + b == a;
    } else if |a| == 1 {
      assert (a + b)[1..] == b;
    } else {
      CollapseJoins(a[1..], b);
      assert (a + b)[1..] == a[1..] + b;
    }
  }

  /** The first position of `c`, or the length when there is none. */
  function IndexOf(s: string, c: char): (i: nat)
    ensures i <= |s| && c !in s[..i] && (i < |s| ==> s[i] == c)
  {
    if s == "" || s[0] == c then 0
    else
      var i := 1 + IndexOf(s[1..], c);
      assert s[..i] == [s[0]] + s[1..][..i - 1];
      i
  }

  lemma {:induction false} IndexAfter(a: string, c: char, b: string)
    requires c !in a
    ensures IndexOf(a + [c] + b, c) == |a|
  {
    if a == "" {
      assert a + [c] + b == [c] + b;
    } else {
      IndexAfter(a[1..], c, b);
      assert (a + [c] + b)[1..] == a[1..] + [c] + b;
    }
  }
}
