/** Source snippets: the line table of a file and the lines around a target (src/snippets/snippet.cpp). */
module Snippets {
  import opened Words
  import opened Wrappers
  import ReplaceAll

  // ---------------------------------------------------------------- lines

  /** A line and what ends it: "\n", "\r\n", or nothing for the last line. */
  datatype Line = Line(text: string, terminator: string)

  function NewlineAt(s: string): (n: nat)
    ensures n <= |s| && (n < |s| ==> s[n] == '\n') && forall i :: 0 <= i < n ==> s[i] != '\n'
  {
    if s == "" || s[0] == '\n' then 0 else 1 + NewlineAt(s[1..])
  }

  /** The line that the newline at n ends. */
  function LineUpTo(s: string, n: nat): (r: Line)
    requires n < |s| && s[n] == '\n'
    ensures r.text + r.terminator == s[..n + 1]
  {
    if n > 0 && s[n - 1] == '\r' then
      assert s[..n - 1] + "\r\n" == s[..n + 1];
      Line(s[..n - 1], "\r\n")
    else
      assert s[..n] + "\n" == s[..n + 1];
      Line(s[..n], "\n")
  }

  function Lines(s: string): (r: seq<Line>)
    ensures r != []
    decreases |s|
  {
    var n := NewlineAt(s);
    if n == |s| then [Line(s, "")] else [LineUpTo(s, n)] + Lines(s[n + 1..])
  }

  function Joined(lines: seq<Line>): string {
    if lines == [] then "" else (lines[0].text + lines[0].terminator) + Joined(lines[1..])
  }

  lemma {:induction false} LinesJoinBack(s: string)
    ensures Joined(Lines(s)) == s
    decreases |s|
  {
    var n := NewlineAt(s);
    if n < |s| {
      LinesJoinBack(s[n + 1..]);
      var first := LineUpTo(s, n);
      assert Lines(s) == [first] + Lines(s[n + 1..]);
      hide Lines, NewlineAt, LineUpTo;
      assert s == s[..n + 1] + s[n + 1..];
    } else {
      assert Lines(s)[1..] == [];
    }
  }

  function Newlines(s: string): nat {
    ReplaceAll.Count(s, '\n')
  }

  lemma {:induction false} NewlinesSplit(s: string, n: nat)
    requires n < |s| && s[n] == '\n' && forall i :: 0 <= i < n ==> s[i] != '\n'
    ensures Newlines(s) == 1 + Newlines(s[n + 1..])
  {
    if n > 0 {
      NewlinesSplit(s[1..], n - 1);
      assert s[1..][n..] == s[n + 1..];
    }
  }

  lemma {:induction false} NoNewlines(s: string)
    requires forall i :: 0 <= i < |s| ==> s[i] != '\n'
    ensures Newlines(s) == 0
  {
    if s != "" {
      NoNewlines(s[1..]);
    }
  }

  /** A line holds no newline; it has a terminator exactly if it is not the last, and takes in a carriage return
      in front of the newline. */
  predicate IsProper(line: Line, isLast: bool) {
    && '\n' !in line.text
    && (isLast ==> line.terminator == "")
    && (!isLast ==> line.terminator == "\r\n"
                    || (line.terminator == "\n" && (line.text == "" || line.text[|line.text| - 1] != '\r')))
  }

  /** One line per newline and one more. */
  lemma {:induction false} LinesAreNewlines(s: string)
    ensures |Lines(s)| == Newlines(s) + 1
    ensures forall i :: 0 <= i < |Lines(s)| ==> IsProper(Lines(s)[i], i == |Lines(s)| - 1)
    decreases |s|
  {
    var n := NewlineAt(s);
    if n < |s| {
      LinesAreNewlines(s[n + 1..]);
      NewlinesSplit(s, n);
      var first := LineUpTo(s, n);
      assert Lines(s) == [first] + Lines(s[n + 1..]);
      assert IsProper(first, false);
      hide Lines, NewlineAt, Newlines, LineUpTo, IsProper;
    } else {
      NoNewlines(s);
    }
  }

  // ---------------------------------------------------------------- the line table

  datatype LineRange = LineRange(begin: nat, end: nat)

  function Start(lines: seq<Line>, k: nat): nat
    requires k <= |lines|
  {
    if k == 0 then 0 else Start(lines, k - 1) + |lines[k - 1].text| + |lines[k - 1].terminator|
  }

  /** The entries are counted from 1, after an empty one, and locate the lines one after the other. */
  ghost predicate IsLineTable(table: seq<LineRange>, lines: seq<Line>) {
    && |table| == |lines| + 1 && table[0] == LineRange(0, 0)
    && forall i :: 0 < i < |table| ==>
         table[i].begin == Start(lines, i - 1) && table[i].end == table[i].begin + |lines[i - 1].text|
  }

  lemma {:induction false} StartPrefix(lines: seq<Line>, lines': seq<Line>, k: nat)
    requires k <= |lines| <= |lines'| && lines == lines'[..|lines|]
    ensures Start(lines, k) == Start(lines', k)
  {
    if k > 0 {
      StartPrefix(lines, lines', k - 1);
      assert lines[k - 1] == lines'[k - 1];
    }
  }

  lemma OneMoreLine(table: seq<LineRange>, lines: seq<Line>, line: Line)
    requires IsLineTable(table, lines)
    ensures var lines' := lines + [line];
            var begin := Start(lines, |lines|);
            && IsLineTable(table + [LineRange(begin, begin + |line.text|)], lines')
            && Start(lines', |lines'|) == begin + |line.text| + |line.terminator|
  {
    var lines' := lines + [line];
    forall i | 0 <= i <= |lines|
      ensures Start(lines, i) == Start(lines', i)
    {
      StartPrefix(lines, lines', i);
    }
  }

  /** What the code between start and the next newline is: the test for a carriage return looks at the
      whole text, so an empty line must follow a newline or nothing. */
  lemma NextLine(s: string, pos: nat, newline: nat)
    requires pos <= newline < |s| && s[newline] == '\n' && forall i :: pos <= i < newline ==> s[i] != '\n'
    requires pos > 0 ==> s[pos - 1] == '\n'
    ensures var end := if newline > 0 && s[newline - 1] == '\r' then newline - 1 else newline;
            && pos <= end
            && Lines(s[pos..]) == [Line(s[pos..end], s[end..newline + 1])] + Lines(s[newline + 1..])
  {
    hide *;
    FirstLine(s[pos..], newline - pos);
    LineInSuffix(s, pos, newline);
    ReplaceAll.SliceOfSlice(s, pos, newline - pos + 1);
  }

  lemma FirstLine(s: string, n: nat)
    requires n < |s| && s[n] == '\n' && forall i :: 0 <= i < n ==> s[i] != '\n'
    ensures Lines(s) == [LineUpTo(s, n)] + Lines(s[n + 1..])
  {
    NewlineIsAt(s, n);
    hide LineUpTo, NewlineAt;
  }

  lemma LineInSuffix(s: string, pos: nat, newline: nat)
    requires pos <= newline < |s| && s[newline] == '\n'
    requires pos > 0 ==> s[pos - 1] == '\n'
    ensures var end := if newline > 0 && s[newline - 1] == '\r' then newline - 1 else newline;
            pos <= end && LineUpTo(s[pos..], newline - pos) == Line(s[pos..end], s[end..newline + 1])
  {
    var end := if newline > 0 && s[newline - 1] == '\r' then newline - 1 else newline;
    ReplaceAll.SliceOfSlice(s, pos, end - pos);
    assert s[end..newline + 1] == if end < newline then "\r\n" else "\n";
  }

  lemma LastLine(s: string, pos: nat)
    requires pos <= |s| && forall i :: pos <= i < |s| ==> s[i] != '\n'
    ensures Lines(s[pos..]) == [Line(s[pos..], "")]
  {
    NewlineIsAt(s[pos..], |s| - pos);
  }

  lemma {:induction false} NewlineIsAt(s: string, n: nat)
    requires n <= |s| && (n < |s| ==> s[n] == '\n') && forall i :: 0 <= i < n ==> s[i] != '\n'
    ensures NewlineAt(s) == n
  {
    if n > 0 {
      NewlineIsAt(s[1..], n - 1);
    }
  }

  /** The text of a line is what the table cuts out. */
  lemma {:induction false} LineIsCut(lines: seq<Line>, k: nat)
    requires k < |lines|
    ensures var begin, end := Start(lines, k), Start(lines, k) + |lines[k].text|;
            end <= |Joined(lines)| && Joined(lines)[begin..end] == lines[k].text
  {
    var first := lines[0].text + lines[0].terminator;
    if k == 0 {
      assert Joined(lines)[..|lines[0].text|] == lines[0].text;
    } else {
      LineIsCut(lines[1..], k - 1);
      StartOfTail(lines, k);
      var begin, end := Start(lines[1..], k - 1), Start(lines[1..], k - 1) + |lines[k].text|;
      assert Joined(lines)[|first| + begin..|first| + end] == Joined(lines[1..])[begin..end];
    }
  }

  lemma {:induction false} StartOfTail(lines: seq<Line>, k: nat)
    requires 0 < k <= |lines|
    ensures Start(lines, k) == |lines[0].text| + |lines[0].terminator| + Start(lines[1..], k - 1)
  {
    if k > 1 {
      StartOfTail(lines, k - 1);
      assert lines[1..][k - 2] == lines[k - 1];
    }
  }

  // ---------------------------------------------------------------- the manager of one file

  /** An index past the end of a vector, which the source does not check. */
  datatype OutOfBounds = OutOfBounds

  class SnippetManager {
    const contents: string
    var loadedContents: bool
    var lineTable: seq<LineRange>

    ghost predicate Valid()
      reads this
    {
      if loadedContents then IsLineTable(lineTable, Lines(contents)) else lineTable == []
    }

    /** None if the file could not be read. */
    constructor (file: Option<string>)
      ensures Valid() && (loadedContents <==> file.Some?) && (file.Some? ==> contents == file.value)
    {
      loadedContents := false;
      contents := if file.Some? then file.value else "";
      lineTable := [];
      new;
      if file.Some? {
        BuildLineTable();
        loadedContents := true;
      }
    }

    method BuildLineTable()
      requires lineTable == []
      modifies this`lineTable
      ensures IsLineTable(lineTable, Lines(contents))
    {
      hide *;
      lineTable := lineTable + [LineRange(0, 0)];
      var pos := 0;
      ghost var before: seq<Line> := [];
      assert lineTable == [LineRange(0, 0)];
      StartOfNothing();
      assert contents[0..] == contents && before + Lines(contents) == Lines(contents);
      while true
        invariant 0 <= pos <= |contents| && (pos > 0 ==> contents[pos - 1] == '\n')
        invariant IsLineTable(lineTable, before) && Start(before, |before|) == pos
        invariant before + Lines(contents[pos..]) == Lines(contents)
        decreases |contents| - pos
      {
        var terminatorPos := FindNewline(contents, pos);
        if terminatorPos.None? {
          LastLine(contents, pos);
          OneMoreLine(lineTable, before, Line(contents[pos..], ""));
          lineTable := lineTable + [LineRange(pos, |contents|)];
          break;
        } else {
          NextLine(contents, pos, terminatorPos.value);
          var endPos := terminatorPos.value;
          if endPos > 0 && contents[endPos - 1] == '\r' {
            endPos := endPos - 1;
          }
          ghost var line := Line(contents[pos..endPos], contents[endPos..terminatorPos.value + 1]);
          OneMoreLine(lineTable, before, line);
          lineTable := lineTable + [LineRange(pos, endPos)];
          pos := terminatorPos.value + 1;
          Regroup(before, [line], Lines(contents[pos..]));
          before := before + [line];
        }
      }
    }

    /** Takes a line counted from 1. The test lets the line just past the table through. */
    method GetLine(line: nat) returns (r: Result<string, OutOfBounds>)
      requires Valid()
      ensures r.Err? <==> loadedContents && line == |Lines(contents)| + 1
      ensures r.Ok? ==> r.value == TextOf(line)
    {
      hide Lines, Joined, Start;
      if !loadedContents || line > |lineTable| {
        return Ok("");
      }
      if line == |lineTable| {
        return Err(OutOfBounds);
      }
      var range := lineTable[line];
      if line > 0 {
        LinesJoinBack(contents);
        LineIsCut(Lines(contents), line - 1);
      }
      return Ok(contents[range.begin..range.end]);
    }

    ghost function TextOf(line: nat): string
      reads this
    {
      if loadedContents && 0 < line <= |Lines(contents)| then Lines(contents)[line - 1].text else ""
    }
  }

  lemma Regroup(a: seq<Line>, b: seq<Line>, c: seq<Line>)
    ensures (a + b) + c == a + (b + c)
  {
  }

  lemma StartOfNothing()
    ensures Start([], 0) == 0 && IsLineTable([LineRange(0, 0)], [])
  {
  }

  method FindNewline(s: string, pos: nat) returns (r: Option<nat>)
    requires pos <= |s|
    ensures r.None? ==> forall i :: pos <= i < |s| ==> s[i] != '\n'
    ensures r.Some? ==> pos <= r.value < |s| && s[r.value] == '\n' && forall i :: pos <= i < r.value ==> s[i] != '\n'
  {
    r := ReplaceAll.Find(s, "\n", pos);
    forall i | pos <= i < |s|
      ensures s[i] == '\n' <==> ReplaceAll.OccursAt(s, i, "\n")
    {
      assert s[i..i + 1] == [s[i]];
    }
  }

  /** Lines are counted from 1, and there is an empty line 0 in front of them. */
  function TextAt(lines: seq<Line>, line: nat): string
    requires line <= |lines|
  {
    if line == 0 then "" else lines[line - 1].text
  }

  // ---------------------------------------------------------------- the lines around a target

  datatype SnippetContext = SnippetContext(originalBegin: nat, begin: nat, end: nat, lines: seq<string>)

  /** The first line of the window. The sums wrap around: with the largest context it can be line 0. */
  function First(target: Size, context: Size): (r: Size)
    ensures r <= target + 1
    ensures context + 1 < SIZE ==> r > 0
  {
    if target <= (context + 1) % SIZE then 1 else (target - context) % SIZE
  }

  function Last(lines: seq<Line>, target: Size, context: Size): nat {
    var end := (target + context) % SIZE;
    if end < |lines| then end else |lines|
  }

  predicate IsBlank(lines: seq<Line>, line: int) {
    0 <= line <= |lines| && TextAt(lines, line) == ""
  }

  /** The exact condition for get_lines not to run off its vector of lines while it trims: the window reaches
      the line before the target, or a line in it stops the trimming. */
  ghost predicate StaysInBounds(lines: seq<Line>, target: Size, context: Size) {
    var first, last := First(target, context), Last(lines, target, context);
    || target <= first
    || (first <= last && target <= last + 1)
    || exists i | first <= i <= last :: !IsBlank(lines, i)
  }

  ghost predicate IsContext(c: SnippetContext, lines: seq<Line>, target: Size, context: Size) {
    var first, last := First(target, context), Last(lines, target, context);
    && c.originalBegin == first
    && IsWindow(c.lines, lines, first, last)
    && first <= c.begin && c.end <= last
    && (forall i :: first <= i < c.begin ==> IsBlank(lines, i))
    && (forall i :: first <= i <= last && c.end < i ==> IsBlank(lines, i))
    && (if first < target then c.begin <= target else c.begin == first)
    && (if target < last then target <= c.end else c.end == last)
    && (c.begin < target ==> c.begin <= last && !IsBlank(lines, c.begin))
    && (target < c.end ==> !IsBlank(lines, c.end))
  }

  /** The lines from begin to end; an end before the begin gives none. */
  ghost predicate IsWindow(window: seq<string>, lines: seq<Line>, begin: nat, end: nat) {
    && |window| == (if begin <= end then end + 1 - begin else 0)
    && end <= |lines|
    && forall i :: 0 <= i < |window| ==> window[i] == TextAt(lines, begin + i)
  }

  method CollectLines(manager: SnippetManager, begin: nat, end: nat) returns (lines: seq<string>)
    requires manager.Valid() && manager.loadedContents && end <= |Lines(manager.contents)|
    ensures IsWindow(lines, Lines(manager.contents), begin, end)
  {
    hide Lines;
    lines := [];
    var line := begin;
    while line <= end
      invariant begin <= line && (begin <= end ==> line <= end + 1) && |lines| == line - begin
      invariant begin > end ==> line == begin
      invariant forall i :: 0 <= i < |lines| ==> lines[i] == TextAt(Lines(manager.contents), begin + i)
      decreases end + 1 - line
    {
      var text := manager.GetLine(line);
      lines := lines + [text.value];
      line := line + 1;
    }
  }

  method TrimFront(window: seq<string>, originalBegin: nat, target: nat, ghost lines: seq<Line>, ghost last: nat)
    returns (r: Result<nat, OutOfBounds>)
    requires IsWindow(window, lines, originalBegin, last)
    ensures r.Err? <==> |window| < target - originalBegin
                        && forall i :: originalBegin <= i <= last ==> IsBlank(lines, i)
    ensures r.Ok? ==>
              && originalBegin <= r.value
              && (if originalBegin < target then r.value <= target else r.value == originalBegin)
              && (forall i :: originalBegin <= i < r.value ==> IsBlank(lines, i))
              && (r.value < target ==> r.value <= last && !IsBlank(lines, r.value))
  {
    var begin := originalBegin;
    while begin < target
      invariant originalBegin <= begin && (if originalBegin < target then begin <= target else begin == originalBegin)
      invariant begin - originalBegin <= |window|
      invariant forall i :: originalBegin <= i < begin ==> IsBlank(lines, i)
      decreases target - begin
    {
      if begin - originalBegin >= |window| {
        return Err(OutOfBounds);
      }
      if window[begin - originalBegin] != "" {
        assert !IsBlank(lines, begin);
        break;
      }
      begin := begin + 1;
    }
    return Ok(begin);
  }

  method TrimBack(window: seq<string>, originalBegin: nat, last: nat, target: nat, ghost lines: seq<Line>) returns (end: nat)
    requires IsWindow(window, lines, originalBegin, last) && originalBegin <= target + 1
    ensures end <= last && (if target < last then target <= end else end == last)
    ensures forall i :: originalBegin <= i <= last && end < i ==> IsBlank(lines, i)
    ensures target < end ==> !IsBlank(lines, end)
  {
    end := last;
    while end > target
      invariant end <= last && (if target < last then target <= end else end == last)
      invariant forall i :: originalBegin <= i <= last && end < i ==> IsBlank(lines, i)
      decreases end
    {
      if window[end - originalBegin] != "" {
        break;
      }
      end := end - 1;
    }
  }

  method GetLines(manager: SnippetManager, target: Size, context: Size) returns (r: Result<Option<SnippetContext>, OutOfBounds>)
    requires manager.Valid()
    ensures !manager.loadedContents ==> r == Ok(None)
    ensures manager.loadedContents ==> (r.Ok? <==> StaysInBounds(Lines(manager.contents), target, context))
    ensures manager.loadedContents && r.Ok? ==>
              r.value.Some? && IsContext(r.value.value, Lines(manager.contents), target, context)
  {
    hide Lines, IsBlank;
    if !manager.loadedContents {
      return Ok(None);
    }
    ghost var all := Lines(manager.contents);
    var originalBegin := if target <= (context + 1) % SIZE then 1 else (target - context) % SIZE;
    var numLines := |manager.lineTable|;
    var last := if (target + context) % SIZE < numLines - 1 then (target + context) % SIZE else numLines - 1;
    assert originalBegin == First(target, context) && last == Last(all, target, context);
    var lines := CollectLines(manager, originalBegin, last);
    hide First, Last;
    var begin :- TrimFront(lines, originalBegin, target, all, last);
    var end := TrimBack(lines, originalBegin, last, target, all);
    return Ok(Some(SnippetContext(originalBegin, begin, end, lines)));
  }

  /** For a target inside the file and a context that does not wrap around nothing runs off. The window has context
      lines on each side of the target, as far as there are any; the target is between the ends; and what the
      snippet leaves out of its window are blank lines, as many as it can on each side of the target. */
  lemma TargetInside(c: SnippetContext, lines: seq<Line>, target: Size, context: Size)
    requires 0 < target <= |lines| && target + context < 0x1_0000_0000_0000_0000 && IsContext(c, lines, target, context)
    ensures StaysInBounds(lines, target, context)
    ensures c.originalBegin == if target <= context + 1 then 1 else target - context
    ensures c.originalBegin + |c.lines| - 1 == if target + context < |lines| then target + context else |lines|
    ensures forall i :: 0 <= i < |c.lines| ==> c.originalBegin + i <= |lines| && c.lines[i] == lines[c.originalBegin + i - 1].text
    ensures 0 < c.originalBegin <= c.begin <= target <= c.end < c.originalBegin + |c.lines|
    ensures forall i :: 0 <= i < |c.lines| && (c.originalBegin + i < c.begin || c.end < c.originalBegin + i) ==> c.lines[i] == ""
    ensures c.begin < target ==> c.lines[c.begin - c.originalBegin] != ""
    ensures target < c.end ==> c.lines[c.end - c.originalBegin] != ""
  {
    WindowAround(lines, target, context);
    hide *;
    EndsAround(c, lines, target, context);
    var first, last := First(target, context), Last(lines, target, context);
    WindowLines(c.lines, lines, first, last);
    BlankOutside(c.lines, lines, first, last, c.begin, c.end);
    if c.begin < target {
      BlankInWindow(c.lines, lines, first, last, c.begin);
    }
    if target < c.end {
      BlankInWindow(c.lines, lines, first, last, c.end);
    }
  }

  lemma WindowLines(window: seq<string>, lines: seq<Line>, first: nat, last: nat)
    requires 0 < first <= last && IsWindow(window, lines, first, last)
    ensures |window| == last + 1 - first
    ensures forall i :: 0 <= i < |window| ==> first + i <= |lines| && window[i] == lines[first + i - 1].text
  {
  }

  lemma BlankInWindow(window: seq<string>, lines: seq<Line>, first: nat, last: nat, i: nat)
    requires first <= i <= last && IsWindow(window, lines, first, last)
    ensures IsBlank(lines, i) <==> window[i - first] == ""
  {
  }

  lemma BlankOutside(window: seq<string>, lines: seq<Line>, first: nat, last: nat, begin: nat, end: nat)
    requires first <= last && IsWindow(window, lines, first, last)
    requires forall i | first <= i <= last :: i < begin || end < i ==> IsBlank(lines, i)
    ensures forall i :: 0 <= i < |window| && (first + i < begin || end < first + i) ==> window[i] == ""
  {
    forall i | 0 <= i < |window| && (first + i < begin || end < first + i)
      ensures window[i] == ""
    {
      assert IsBlank(lines, first + i);
    }
  }

  lemma WindowAround(lines: seq<Line>, target: Size, context: Size)
    requires 0 < target <= |lines| && target + context < 0x1_0000_0000_0000_0000
    ensures 0 < First(target, context) <= target <= Last(lines, target, context) <= |lines|
    ensures First(target, context) == if target <= context + 1 then 1 else target - context
    ensures Last(lines, target, context) == if target + context < |lines| then target + context else |lines|
  {
  }

  lemma EndsAround(c: SnippetContext, lines: seq<Line>, target: Size, context: Size)
    requires IsContext(c, lines, target, context)
    requires First(target, context) <= target <= Last(lines, target, context)
    ensures c.originalBegin == First(target, context) && c.originalBegin <= c.begin <= target <= c.end
    ensures c.end <= Last(lines, target, context) && StaysInBounds(lines, target, context)
    ensures IsWindow(c.lines, lines, First(target, context), Last(lines, target, context))
    ensures forall i | First(target, context) <= i <= Last(lines, target, context) :: i < c.begin || c.end < i ==> IsBlank(lines, i)
    ensures c.begin < target ==> !IsBlank(lines, c.begin)
    ensures target < c.end ==> !IsBlank(lines, c.end)
  {
    hide First, Last, IsBlank, IsWindow;
  }

  /** So the target is in the window exactly if target and context do not wrap around. */
  lemma TargetIsShown(c: SnippetContext, lines: seq<Line>, target: Size, context: Size)
    requires 0 < target <= |lines| && IsContext(c, lines, target, context)
    ensures c.begin <= target <= c.end <==> target + context < 0x1_0000_0000_0000_0000
  {
    hide IsBlank, IsWindow;
    if target + context < SIZE {
      TargetInside(c, lines, target, context);
    } else {
      assert (target + context) % SIZE == target + context - SIZE < target;
    }
  }
}
