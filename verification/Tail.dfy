/**
 * The backward block reader behind every log scan: the last lines of a file, read from its
 * end in blocks without ever reading the rest.
 */
module Tail {
  import opened Sequences

  /** The characters str.splitlines ends a line at. */
  predicate IsBreak(c: char) {
    c == '\n' || c == '\r' || c == '\U{0B}' || c == '\U{0C}' || c == '\U{1C}' || c == '\U{1D}' ||
    c == '\U{1E}' || c == '\U{85}' || c == '\U{2028}' || c == '\U{2029}'
  }

  predicate IsNewline(c: char) { c == '\n' }

  /** The position after the first line and its terminator; "\r\n" is one terminator. */
  function AfterFirstLine(s: string): (e: nat)
    requires s != []
    ensures 0 < e <= |s|
  {
    var k := FirstIndex(s, IsBreak);
    if k == |s| then |s|
    else if s[k] == '\r' && k + 1 < |s| && s[k + 1] == '\n' then k + 2
    else k + 1
  }

  /** The lines of a text, without their terminators. */
  function SplitLines(s: string): (lines: seq<string>)
    decreases |s|
  {
    if s == [] then []
    else [s[..FirstIndex(s, IsBreak)]] + SplitLines(s[AfterFirstLine(s)..])
  }

  // ----- What splitting computes -----

  lemma BreaksAre(c: char)
    ensures IsBreak(c) <==> c in "\n\r\U{0B}\U{0C}\U{1C}\U{1D}\U{1E}\U{85}\U{2028}\U{2029}"
  {
  }

  /** The text of lines, each followed by its terminator. */
  function Joined(lines: seq<string>, ends: seq<string>): string
    requires |lines| == |ends|
  {
    if lines == [] then [] else lines[0] + ends[0] + Joined(lines[1..], ends[1..])
  }

  /** A terminator is "\r\n" or one break; only a non-empty last line may do without. */
  ghost predicate Terminates(line: string, end: string, last: bool) {
    end == "\r\n" || (|end| == 1 && IsBreak(end[0])) || (end == "" && last && line != "")
  }

  /** lines and ends are a splitting of s: no line holds a break, and a lone "\r" precedes no "\n". */
  ghost predicate IsSplitting(s: string, lines: seq<string>, ends: seq<string>) {
    && |lines| == |ends| && Joined(lines, ends) == s
    && (forall i :: 0 <= i < |lines| ==> Whole(lines[i]))
    && (forall i :: 0 <= i < |lines| ==> Terminates(lines[i], ends[i], i == |lines| - 1))
    && (forall i :: 0 < i < |lines| && ends[i - 1] == "\r" ==> lines[i] != "" || ends[i] != "\n")
  }

  ghost predicate Whole(line: string) {
    forall c :: c in line ==> !IsBreak(c)
  }

  lemma FirstCharacters(lines: seq<string>, ends: seq<string>)
    requires |lines| == |ends| && lines != [] && (lines[0] != "" || ends[0] != "")
    ensures var s := Joined(lines, ends); s != [] && s[0] == if lines[0] != "" then lines[0][0] else ends[0][0]
  {
  }

  /** The first line of a splitting is the first line of the text. */
  lemma FirstOfSplitting(s: string, lines: seq<string>, ends: seq<string>)
    requires IsSplitting(s, lines, ends) && lines != []
    ensures s != [] && FirstIndex(s, IsBreak) == |lines[0]| && AfterFirstLine(s) == |lines[0]| + |ends[0]|
    ensures s[AfterFirstLine(s)..] == Joined(lines[1..], ends[1..])
  {
    hide IsBreak;
    var k, rest := |lines[0]|, Joined(lines[1..], ends[1..]);
    assert s == lines[0] + ends[0] + rest;
    assert Whole(lines[0]) && Terminates(lines[0], ends[0], 0 == |lines| - 1);
    forall i | 0 <= i < k ensures !IsBreak(s[i]) {
      assert s[i] in lines[0];
    }
    BreaksAre('\r');
    BreaksAre('\n');
    if ends[0] == "" {
      assert rest == [];
    } else {
      assert s[k] == ends[0][0];
    }
    FirstIndexUnique(s, IsBreak, k);
    if ends[0] == "\r" && rest != [] {
      assert rest[0] == s[k + 1];
      NoNewlineAfter(lines, ends);
    } else if ends[0] == "\r\n" {
      assert s[k + 1] == ends[0][1];
    }
  }

  lemma NoNewlineAfter(lines: seq<string>, ends: seq<string>)
    requires |lines| == |ends| && IsSplitting(Joined(lines, ends), lines, ends)
    requires lines != [] && ends[0] == "\r" && Joined(lines[1..], ends[1..]) != []
    ensures Joined(lines[1..], ends[1..])[0] != '\n'
  {
    hide IsBreak;
    BreaksAre('\n');
    assert |lines| > 1;
    assert Whole(lines[1]) && Terminates(lines[1], ends[1], 1 == |lines| - 1);
    FirstCharacters(lines[1..], ends[1..]);
    if lines[1] != "" {
      assert lines[1][0] in lines[1];
    } else {
      assert ends[1 - 1] == "\r" && ends[1] != "\n";
    }
  }

  /** The conditions of a splitting leave no choice. */
  lemma {:induction false} SplittingIsUnique(s: string, lines: seq<string>, ends: seq<string>)
    requires IsSplitting(s, lines, ends)
    ensures lines == SplitLines(s)
    decreases |lines|
  {
    hide IsBreak;
    if lines != [] {
      FirstOfSplitting(s, lines, ends);
      var e := AfterFirstLine(s);
      assert s[..|lines[0]|] == lines[0];
      assert IsSplitting(s[e..], lines[1..], ends[1..]) by {
        assert forall i :: 0 <= i < |lines[1..]| ==> lines[1..][i] == lines[i + 1] && ends[1..][i] == ends[i + 1];
      }
      SplittingIsUnique(s[e..], lines[1..], ends[1..]);
    }
  }

  lemma {:induction false} SplitsText(s: string) returns (ends: seq<string>)
    ensures IsSplitting(s, SplitLines(s), ends)
    decreases |s|
  {
    hide IsSplitting, IsBreak, AfterFirstLine;
    if s == [] {
      ends := [];
      NothingToSplit();
    } else {
      var k, e := FirstIndex(s, IsBreak), AfterFirstLine(s);
      var rest := SplitsText(s[e..]);
      BreakFirst(s);
      ends := [s[k..e]] + rest;
      PrependLine(s, k, e, SplitLines(s[e..]), rest);
    }
  }

  lemma BreakFirst(s: string)
    requires s != []
    ensures FirstIndex(s, IsBreak) <= AfterFirstLine(s)
  {
  }

  lemma NothingToSplit()
    ensures IsSplitting([], [], [])
  {
  }

  lemma Cut<T>(s: seq<T>, k: nat, e: nat)
    requires k <= e <= |s|
    ensures s == s[..k] + s[k..e] + s[e..]
  {
  }

  lemma FirstTerminator(s: string)
    requires s != []
    ensures var k, e := FirstIndex(s, IsBreak), AfterFirstLine(s);
            && k <= e
            && Terminates(s[..k], s[k..e], e == |s|)
            && (s[k..e] == "\r" && e < |s| ==> s[e] != '\n')
  {
    hide IsBreak;
    var k, e := FirstIndex(s, IsBreak), AfterFirstLine(s);
    if k == |s| {
      assert s[k..e] == "";
    } else if e == k + 1 {
      assert s[k..e] == [s[k]];
    } else {
      assert s[k..e] == [s[k], s[k + 1]];
    }
  }

  lemma FirstLineParts(s: string)
    requires s != []
    ensures var k, e := FirstIndex(s, IsBreak), AfterFirstLine(s);
            && k <= e && s == s[..k] + s[k..e] + s[e..]
            && Whole(s[..k]) && Terminates(s[..k], s[k..e], e == |s|)
            && (s[k..e] == "\r" && e < |s| ==> s[e] != '\n')
  {
    hide IsBreak, Terminates;
    var k, e := FirstIndex(s, IsBreak), AfterFirstLine(s);
    Cut(s, k, e);
    FirstTerminator(s);
    forall c | c in s[..k] ensures !IsBreak(c) {
      var i :| 0 <= i < k && s[i] == c;
    }
  }

  /** A first line before a splitting. */
  lemma PrependLine(s: string, k: nat, e: nat, lines: seq<string>, ends: seq<string>)
    requires s != [] && k == FirstIndex(s, IsBreak) && e == AfterFirstLine(s)
    requires IsSplitting(s[e..], lines, ends)
    ensures k <= e && IsSplitting(s, [s[..k]] + lines, [s[k..e]] + ends)
  {
    hide IsBreak, AfterFirstLine, Whole, Terminates;
    FirstLineParts(s);
    var all, marks := [s[..k]] + lines, [s[k..e]] + ends;
    assert all[1..] == lines && marks[1..] == ends;
    SplitsNothing(s[e..], lines, ends);
    if lines != [] && lines[0] == "" && ends[0] == "\n" {
      FirstCharacters(lines, ends);
      assert s[e..][0] == s[e];
    }
  }

  lemma SplitsNothing(s: string, lines: seq<string>, ends: seq<string>)
    requires IsSplitting(s, lines, ends)
    ensures s == [] <==> lines == []
  {
    if lines != [] {
      assert Terminates(lines[0], ends[0], 0 == |lines| - 1);
      FirstCharacters(lines, ends);
    }
  }

  /** A list of lines is the splitting of a text exactly when the text is theirs with such terminators. */
  lemma SplitLinesIff(s: string, lines: seq<string>)
    ensures lines == SplitLines(s) <==> exists ends :: IsSplitting(s, lines, ends)
  {
    hide IsSplitting, SplitLines;
    if lines == SplitLines(s) {
      var ends := SplitsText(s);
    }
    if ends :| IsSplitting(s, lines, ends) {
      SplittingIsUnique(s, lines, ends);
    }
  }

  // ----- Newlines -----

  function Newlines(s: string): (n: nat)
    ensures n <= |s|
  {
    if s == [] then 0 else (if s[0] == '\n' then 1 else 0) + Newlines(s[1..])
  }

  lemma {:induction false} NewlinesConcat(a: string, b: string)
    ensures Newlines(a + b) == Newlines(a) + Newlines(b)
  {
    if a == [] {
      assert a + b == b;
    } else {
      assert (a + b)[1..] == a[1..] + b;
      NewlinesConcat(a[1..], b);
    }
  }

  lemma {:induction false} FewNewlines(a: string)
    requires forall i :: 0 <= i < |a| - 1 ==> a[i] != '\n'
    ensures Newlines(a) <= 1
  {
    if |a| > 1 {
      FewNewlines(a[1..]);
    }
  }

  /** The first line and its terminator hold at most one newline. */
  lemma FirstLineNewlines(s: string)
    requires s != []
    ensures Newlines(s) <= 1 + Newlines(s[AfterFirstLine(s)..])
  {
    var e := AfterFirstLine(s);
    assert s == s[..e] + s[e..];
    NewlinesConcat(s[..e], s[e..]);
    var k := FirstIndex(s, IsBreak);
    forall i | 0 <= i < |s[..e]| - 1 ensures s[..e][i] != '\n' {
      if i < k { assert !IsBreak(s[i]); }
    }
    FewNewlines(s[..e]);
  }

  lemma {:induction false} EnoughLines(s: string)
    ensures |SplitLines(s)| >= Newlines(s)
    decreases |s|
  {
    if s != [] {
      FirstLineNewlines(s);
      EnoughLines(s[AfterFirstLine(s)..]);
    }
  }

  /** A newline is always a clean place to cut: nothing on the left changes the lines on the right. */
  lemma {:induction false} SplitAtNewline(a: string, b: string)
    requires a != [] && a[|a| - 1] == '\n'
    ensures SplitLines(a + b) == SplitLines(a) + SplitLines(b)
    decreases |a|
  {
    hide Newlines, AfterFirstLine, FirstIndex, IsBreak;
    var e := AfterFirstLine(a);
    FirstLineOfConcat(a, b);
    assert (a + b)[e..] == a[e..] + b;
    var k := FirstIndex(a, IsBreak);
    assert (a + b)[..k] == a[..k];
    if e == |a| {
      assert a[e..] == [] && a[e..] + b == b;
    } else {
      assert a[e..][|a| - e - 1] == '\n';
      SplitAtNewline(a[e..], b);
    }
  }

  lemma FirstLineOfConcat(a: string, b: string)
    requires a != [] && a[|a| - 1] == '\n'
    ensures FirstIndex(a + b, IsBreak) == FirstIndex(a, IsBreak) < |a|
    ensures AfterFirstLine(a + b) == AfterFirstLine(a)
  {
    var k := FirstIndex(a, IsBreak);
    assert IsBreak(a[|a| - 1]);
    assert forall i :: 0 <= i < |a| ==> (a + b)[i] == a[i];
    FirstIndexUnique(a + b, IsBreak, k);
  }

  /** The last n elements; everything when there are fewer. */
  function Last<T>(s: seq<T>, n: nat): seq<T> {
    if n >= |s| then s else s[|s| - n..]
  }

  /** What the slice [-n:] yields: for n = 0 it is the whole list. */
  function SliceFromEnd<T>(s: seq<T>, n: nat): seq<T> {
    if n == 0 then s else Last(s, n)
  }

  lemma LastOfConcat<T>(a: seq<T>, b: seq<T>, n: nat)
    requires |b| >= n
    ensures Last(a + b, n) == Last(b, n)
  {
  }

  /** The text up to and including its first newline, and the rest. */
  lemma FirstNewline(s: string) returns (head: string, rest: string)
    requires Newlines(s) > 0
    ensures s == head + rest && head != [] && head[|head| - 1] == '\n'
    ensures Newlines(rest) == Newlines(s) - 1
  {
    var k := FirstIndex(s, IsNewline);
    HasNewline(s);
    head, rest := s[..k + 1], s[k + 1..];
    NewlinesConcat(head, rest);
    assert forall i :: 0 <= i < k ==> !IsNewline(s[i]);
    FewNewlines(head);
    NewlinesConcat(head[..k], ['\n']);
    assert head == head[..k] + ['\n'];
  }

  /**
   * Any suffix with more than n newlines has the last n lines of the whole text, wherever
   * the cut falls in a line or between the two characters of a "\r\n".
   */
  lemma SuffixHasLastLines(before: string, data: string, n: nat)
    requires Newlines(data) > n
    ensures Last(SplitLines(before + data), n) == Last(SplitLines(data), n)
  {
    hide *;
    var head, rest := FirstNewline(data);
    assert before + data == (before + head) + rest;
    SplitAtNewline(head, rest);
    SplitAtNewline(before + head, rest);
    EnoughLines(rest);
    LastOfConcat(SplitLines(head), SplitLines(rest), n);
    LastOfConcat(SplitLines(before + head), SplitLines(rest), n);
  }

  lemma {:induction false} HasNewline(s: string)
    requires Newlines(s) > 0
    ensures FirstIndex(s, IsNewline) < |s|
  {
    if s[0] != '\n' {
      HasNewline(s[1..]);
      assert IsNewline(s[1..][FirstIndex(s[1..], IsNewline)]);
    }
  }

  lemma SplitEmptyIff(s: string)
    ensures SplitLines(s) == [] <==> s == []
    ensures Newlines([]) == 0
  {
  }

  /** An unreadable file is None. */
  method TailLines(file: Option<string>, maxLines: nat, block: nat) returns (lines: seq<string>)
    requires block >= 1
    ensures file.None? ==> lines == []
    ensures file.Some? ==>
              (lines == Last(SplitLines(file.value), maxLines) <==> maxLines >= 1 || file.value == [])
    ensures file.Some? && maxLines >= 1 ==>
              var all := SplitLines(file.value);
              lines == if |all| <= maxLines then all else all[|all| - maxLines..]
  {
    hide SplitLines, Newlines;
    if file.None? {
      return [];
    }
    var content := file.value;
    var size := |content|;
    var data: string := [];
    while size > 0 && Newlines(data) <= maxLines
      invariant 0 <= size <= |content|
      invariant data == content[size..]
      decreases size
    {
      var step := if block < size then block else size;
      size := size - step;
      assert content[size..] == content[size..size + step] + content[size + step..];
      data := content[size..size + step] + data;
    }
    lines := SliceFromEnd(SplitLines(data), maxLines);
    assert content == content[..size] + data;
    SplitEmptyIff(data);
    SplitEmptyIff(content);
    if Newlines(data) > maxLines {
      SuffixHasLastLines(content[..size], data, maxLines);
    } else {
      assert data == content;
    }
  }
}
