/** The planner's heading scanner, in two passes (plan/sections.go), and the rewriter's own, in
    one (reconcile.go): both compute the same headings of every document. */
module Scanners {
  import opened Records
  import opened Markdown

  datatype SourceLine = SourceLine(start: nat, textEnd: nat, next: nat, text: string)

  /** The lines from `start` on. */
  function LinesAt(raw: string, start: nat): seq<SourceLine>
    requires start <= |raw|
    decreases |raw| - start
  {
    if start == |raw| then []
    else
      var text, next := TextAt(raw, start), NextStart(raw, start);
      [SourceLine(start, start + |text|, next, text)] + LinesAt(raw, next)
  }

  function HeadingsOf(lines: seq<SourceLine>, fence: Fence): seq<HeadingLine> {
    if lines == [] then []
    else
      var turn := Step(fence, lines[0].text);
      Entry(turn.head, lines[0].start, lines[0].textEnd) + HeadingsOf(lines[1..], turn.fence)
  }

  function EndOf(lines: seq<SourceLine>, fence: Fence): Fence {
    if lines == [] then fence else EndOf(lines[1..], Step(fence, lines[0].text).fence)
  }

  /** The scanners keep an open fence as its marker, or NUL, and its length. */
  function FenceOf(mark: char, length: nat): Fence {
    if mark == '\0' then Outside else Inside(mark, length)
  }

  lemma {:induction false} LinesDecide(raw: string, start: nat, fence: Fence)
    requires start <= |raw|
    ensures HeadingsOf(LinesAt(raw, start), fence) == HeadingsAt(raw, start, fence)
    ensures EndOf(LinesAt(raw, start), fence) == End(raw[start..], fence)
    decreases |raw| - start
  {
    hide *;
    if start < |raw| {
      var text, next := TextAt(raw, start), NextStart(raw, start);
      LinesDecide(raw, next, Step(fence, text).fence);
      OneMoreLine(SourceLine(start, start + |text|, next, text), LinesAt(raw, next), fence);
      NextSourceLine(raw, start);
      NextHeading(raw, start, fence);
      NextEnd(raw, start, fence);
    } else {
      NothingMore(raw, fence);
    }
  }

  lemma NothingMore(raw: string, fence: Fence)
    ensures LinesAt(raw, |raw|) == [] && HeadingsOf([], fence) == [] && EndOf([], fence) == fence
    ensures HeadingsAt(raw, |raw|, fence) == [] && End(raw[|raw|..], fence) == fence
  {
  }

  lemma NextEnd(raw: string, start: nat, fence: Fence)
    requires start < |raw|
    ensures End(raw[start..], fence) == End(raw[NextStart(raw, start)..], Step(fence, TextAt(raw, start)).fence)
  {
    hide Step, Text, LineLength;
    Suffix(raw, start);
  }

  lemma Suffix(raw: string, start: nat)
    requires start < |raw|
    ensures var n := LineLength(raw[start..]);
            raw[start..][..n] == raw[start..NextStart(raw, start)] && raw[start..][n..] == raw[NextStart(raw, start)..]
  {
  }

  lemma OneMoreLine(line: SourceLine, rest: seq<SourceLine>, fence: Fence)
    ensures var turn := Step(fence, line.text);
            && HeadingsOf([line] + rest, fence) ==
                 Entry(turn.head, line.start, line.textEnd) + HeadingsOf(rest, turn.fence)
            && EndOf([line] + rest, fence) == EndOf(rest, turn.fence)
  {
    assert ([line] + rest)[1..] == rest;
  }

  /** bytes.IndexByte: the next newline from `start`. */
  method IndexNewline(raw: string, start: nat) returns (at: Option<nat>)
    requires start < |raw|
    ensures var n := start + LineLength(raw[start..]);
            at == if raw[n - 1] == '\n' then Some(n - 1) else None
  {
    var k := start;
    while k < |raw|
      invariant start <= k <= |raw| && forall j :: start <= j < k ==> raw[j] != '\n'
    {
      if raw[k] == '\n' {
        LineEndsAt(raw[start..], k - start);
        return Some(k);
      }
      k := k + 1;
    }
    return None;
  }

  lemma {:induction false} LineEndsAt(t: string, k: nat)
    requires k < |t| && t[k] == '\n' && forall j :: 0 <= j < k ==> t[j] != '\n'
    ensures LineLength(t) == k + 1
  {
    if k > 0 {
      LineEndsAt(t[1..], k - 1);
    }
  }

  /** One line of the text, cut as both scanners cut it. */
  method CutLine(raw: string, start: nat) returns (textEnd: nat, next: nat)
    requires start < |raw|
    ensures next == NextStart(raw, start) && start <= textEnd <= next
    ensures raw[start..textEnd] == TextAt(raw, start)
  {
    hide *;
    var end := IndexNewline(raw, start);
    next, textEnd := |raw|, |raw|;
    if end.Some? { next, textEnd := end.value + 1, end.value; }
    NextUnfolds(raw, start);
    TextCut(raw, start, next, textEnd);
    if textEnd > start && raw[textEnd - 1] == '\r' {
      textEnd := textEnd - 1;
    }
  }

  lemma NextUnfolds(raw: string, start: nat)
    requires start < |raw|
    ensures NextStart(raw, start) == start + LineLength(raw[start..])
    ensures TextAt(raw, start) == Text(raw[start..NextStart(raw, start)])
    ensures NextStart(raw, start) < |raw| ==> raw[NextStart(raw, start) - 1] == '\n'
  {
    hide LineLength, Text;
    var t := raw[start..];
    assert LineLength(t) < |t| ==> t[LineLength(t) - 1] == '\n';
  }

  lemma TextCut(raw: string, start: nat, next: nat, end: nat)
    requires start < next <= |raw| && end == (if raw[next - 1] == '\n' then next - 1 else next)
    ensures Text(raw[start..next]) == raw[start..if end > start && raw[end - 1] == '\r' then end - 1 else end]
  {
    var line, body := raw[start..next], raw[start..end];
    assert body == if line[|line| - 1] == '\n' then line[..|line| - 1] else line;
    assert body != "" ==> raw[start..end - 1] == body[..|body| - 1];
  }

  lemma NextSourceLine(raw: string, start: nat)
    requires start < |raw|
    ensures var text, next := TextAt(raw, start), NextStart(raw, start);
            LinesAt(raw, start) == [SourceLine(start, start + |text|, next, text)] + LinesAt(raw, next)
  {
  }

  lemma NoMoreLines(raw: string)
    ensures LinesAt(raw, |raw|) == []
  {
  }

  method SplitLines(raw: string) returns (lines: seq<SourceLine>)
    ensures lines == LinesAt(raw, 0)
  {
    hide LinesAt, TextAt, NextStart;
    lines := [];
    var start := 0;
    NoMoreLines(raw);
    while start < |raw|
      invariant start <= |raw|
      invariant LinesAt(raw, 0) == lines + LinesAt(raw, start)
      decreases |raw| - start
    {
      var textEnd, next := CutLine(raw, start);
      var line := SourceLine(start, textEnd, next, raw[start..textEnd]);
      NextSourceLine(raw, start);
      Associate(lines, [line], LinesAt(raw, next), LinesAt(raw, start));
      lines := lines + [line];
      start := next;
    }
  }

  /** One turn of scanHeadings' loop. */
  method PlannerLine(text: string, mark: char, length: nat) returns (mark': char, length': nat, head: Option<Head>)
    requires FenceOf(mark, length).Valid()
    ensures Step(FenceOf(mark, length), text) == Turn(FenceOf(mark', length'), head)
    ensures mark == '\0' && mark' != '\0' ==> Opens(text).Some?
    ensures FenceOf(mark', length').Valid()
  {
    mark', length', head := mark, length, None;
    var trimmed := TrimIndent(text);
    var indent := |text| - |trimmed|;
    if mark != '\0' {
      if indent <= 3 && Marker(trimmed, mark) >= length && TrimSpace(trimmed[Marker(trimmed, mark)..]) == "" {
        mark', length' := '\0', 0;
      }
      return;
    }
    if indent <= 3 && |trimmed| > 0 && (trimmed[0] == '`' || trimmed[0] == '~') {
      var n := Marker(trimmed, trimmed[0]);
      if n >= 3 {
        mark', length' := trimmed[0], n;
        return;
      }
    }
    var level := Marker(text, '#');
    if level < 1 || level > 6 || |text| <= level || (text[level] != ' ' && text[level] != '\t') { return; }
    var title := TrimSpace(text[level..]);
    if title != "" { head := Some(Head(level, title)); }
  }

  /** scanHeadings: the headings outside fences, and the line of a fence left open. */
  method ScanHeadings(lines: seq<SourceLine>) returns (headings: seq<HeadingLine>, unterminated: Option<SourceLine>)
    ensures headings == HeadingsOf(lines, Outside)
    ensures unterminated.None? <==> EndOf(lines, Outside) == Outside
    ensures unterminated.Some? ==> unterminated.value in lines && Opens(unterminated.value.text).Some?
  {
    headings, unterminated := [], None;
    var mark, length := '\0', 0;
    assert lines[0..] == lines;
    for k := 0 to |lines|
      invariant FenceOf(mark, length).Valid()
      invariant HeadingsOf(lines, Outside) == headings + HeadingsOf(lines[k..], FenceOf(mark, length))
      invariant EndOf(lines, Outside) == EndOf(lines[k..], FenceOf(mark, length))
      invariant unterminated.None? <==> mark == '\0'
      invariant unterminated.Some? ==> unterminated.value in lines && Opens(unterminated.value.text).Some?
    {
      var line := lines[k];
      assert lines[k..] == [line] + lines[k + 1..];
      OneMoreLine(line, lines[k + 1..], FenceOf(mark, length));
      var mark', length', head := PlannerLine(line.text, mark, length);
      if mark' == '\0' {
        unterminated := None;
      } else if mark == '\0' {
        unterminated := Some(line);
      }
      mark, length := mark', length';
      var entry := Entry(head, line.start, line.textEnd);
      ghost var rest := HeadingsOf(lines[k + 1..], FenceOf(mark', length'));
      Associate(headings, entry, rest, entry + rest);
      headings := headings + entry;
    }
    assert lines[|lines|..] == [];
  }

  /** The planner's headings of a document are those of the specification. */
  method PlannerHeadings(raw: string) returns (headings: seq<HeadingLine>, closed: bool)
    ensures headings == HeadingsAt(raw, 0, Outside)
    ensures closed <==> End(raw, Outside) == Outside
  {
    var lines := SplitLines(raw);
    var unterminated;
    headings, unterminated := ScanHeadings(lines);
    LinesDecide(raw, 0, Outside);
    assert raw[0..] == raw;
    closed := unterminated.None?;
  }

  /** One turn of the rewriter's loop: the same decisions in one switch. */
  method RewriterLine(line: string, mark: char, length: nat) returns (mark': char, length': nat, head: Option<Head>)
    requires FenceOf(mark, length).Valid()
    ensures Step(FenceOf(mark, length), line) == Turn(FenceOf(mark', length'), head)
    ensures FenceOf(mark', length').Valid()
  {
    mark', length', head := mark, length, None;
    var trimmed := TrimIndent(line);
    var indent := |line| - |trimmed|;
    if mark != '\0' {
      if indent <= 3 && Marker(trimmed, mark) >= length && TrimSpace(trimmed[Marker(trimmed, mark)..]) == "" {
        mark', length' := '\0', 0;
      }
    } else if indent <= 3 && |trimmed| > 0 && (trimmed[0] == '`' || trimmed[0] == '~')
              && Marker(trimmed, trimmed[0]) >= 3 {
      mark', length' := trimmed[0], Marker(trimmed, trimmed[0]);
    } else {
      var level := Marker(line, '#');
      if level >= 1 && level <= 6 && |line| > level && (line[level] == ' ' || line[level] == '\t') {
        var text := TrimSpace(line[level..]);
        if text != "" { head := Some(Head(level, text)); }
      }
    }
  }

  lemma NextHeading(raw: string, start: nat, fence: Fence)
    requires start < |raw|
    ensures var text := TextAt(raw, start);
            var turn := Step(fence, text);
            && start + |text| <= NextStart(raw, start)
            && HeadingsAt(raw, start, fence)
               == Entry(turn.head, start, start + |text|) + HeadingsAt(raw, NextStart(raw, start), turn.fence)
  {
  }

  /** One turn of its loop. */
  method RewriterTurn(raw: string, start: nat, mark: char, length: nat)
    returns (entry: seq<HeadingLine>, next: nat, mark': char, length': nat)
    requires start < |raw| && FenceOf(mark, length).Valid()
    ensures start < next <= |raw| && FenceOf(mark', length').Valid()
    ensures HeadingsAt(raw, start, FenceOf(mark, length)) == entry + HeadingsAt(raw, next, FenceOf(mark', length'))
  {
    hide HeadingsAt, TextAt, NextStart, Step;
    var textEnd, head;
    textEnd, next := CutLine(raw, start);
    NextHeading(raw, start, FenceOf(mark, length));
    mark', length', head := RewriterLine(raw[start..textEnd], mark, length);
    entry := if head.Some? then [HeadingLine(start, textEnd, head.value.level, head.value.title)] else [];
  }

  /** headings of reconcile.go: the rewriter's headings are the same. */
  method RewriterHeadings(raw: string) returns (result: seq<HeadingLine>)
    ensures result == HeadingsAt(raw, 0, Outside)
  {
    result := [];
    var mark, length := '\0', 0;
    var start := 0;
    while start < |raw|
      invariant start <= |raw| && FenceOf(mark, length).Valid()
      invariant HeadingsAt(raw, 0, Outside) == result + HeadingsAt(raw, start, FenceOf(mark, length))
      decreases |raw| - start
    {
      ghost var from := HeadingsAt(raw, start, FenceOf(mark, length));
      var entry;
      entry, start, mark, length := RewriterTurn(raw, start, mark, length);
      Associate(result, entry, HeadingsAt(raw, start, FenceOf(mark, length)), from);
      result := result + entry;
    }
  }

  lemma Associate<T>(a: seq<T>, b: seq<T>, c: seq<T>, bc: seq<T>)
    requires bc == b + c
    ensures a + bc == a + b + c
  {
  }
}
